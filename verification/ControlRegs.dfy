/**
 CR0 and CR4: the values the hypervisor keeps, the values the processor runs with, and the values the guest reads
 through the mask and the read shadow (section 24.6.6 of the Intel SDM, volume 3C).
 */
module ControlRegs {
  const CR0_PE: bv64 := 0x1
  const CR0_NW: bv64 := 0x2000_0000
  const CR0_CD: bv64 := 0x4000_0000
  const CR0_PG: bv64 := 0x8000_0000
  const CR4_PAE: bv64 := 0x20
  const CR4_MCE: bv64 := 0x40
  const CR4_VMXE: bv64 := 0x2000
  const CR4_SMXE: bv64 := 0x4000

  /** The VMCS fields of one register. */
  datatype Fields = Fields(guest: bv64, mask: bv64, shadow: bv64)

  function Masked(a: bv64, mask: bv64): bv64 {
    a & mask
  }

  /** The masked bits of one value, the others of another. */
  function Mix(a: bv64, b: bv64, mask: bv64): bv64 {
    Join(Masked(a, !mask), Masked(b, mask))
  }

  function Join(a: bv64, b: bv64): bv64 {
    a | b
  }

  /** What the guest reads: a masked bit comes from the shadow. */
  function Visible(f: Fields): bv64 {
    Mix(f.guest, f.shadow, f.mask)
  }

  /** What a guest MOV to the register does when it does not exit: it changes the bits that are not masked. */
  function Moved(f: Fields, val: bv64): Fields {
    f.(guest := Mix(val, f.guest, f.mask))
  }

  /** A guest MOV exits when it would change a masked bit of what the guest sees. */
  predicate MovExits(f: Fields, val: bv64) {
    !Agrees(val, f)
  }

  /** A pair of fixed-bit MSRs: a bit fixed to 1 may be 1 (sections A.7 and A.8 of volume 3D). */
  predicate Legal(fixed0: bv64, fixed1: bv64) {
    fixed0 & !fixed1 == 0
  }

  /** The CR0 part of vmwrite_cr; `own` and `ownShadow` are the mask and the shadow the hypervisor asks for itself. */
  function WriteCr0(cr0: bv64, fixed0: bv64, fixed1: bv64, unrestricted: bool, own: bv64, ownShadow: bv64): Fields {
    Fields(
      (cr0 & fixed1) | (fixed0 & !(CR0_PE | CR0_PG)),
      if unrestricted then own | CR0_CD | CR0_NW | !((fixed0 ^ fixed1) | CR0_PE)
      else own | CR0_CD | CR0_NW | CR0_PE | CR0_PG | !(fixed0 ^ fixed1),
      (cr0 & !own) | (ownShadow & own))
  }

  /** The CR4 part. */
  function WriteCr4(cr4: bv64, fixed0: bv64, fixed1: bv64, own: bv64, ownShadow: bv64): Fields {
    Fields(
      ((cr4 | CR4_MCE) & fixed1) | fixed0,
      own | !(fixed0 ^ fixed1) | CR4_VMXE | CR4_SMXE | CR4_MCE | CR4_PAE,
      (cr4 & !own) | (ownShadow & own))
  }

  /** vmread_cr */
  function ReadBack(state: bv64, f: Fields): bv64 {
    Mix(f.guest, state, f.mask)
  }

  /** Bits that are not masked are the hypervisor's; so are the masked ones it does not shadow itself. */
  lemma Blend(state: bv64, f: Fields, own: bv64, ownShadow: bv64)
    requires f.guest & !f.mask == state & !f.mask && own & !f.mask == 0
    requires f.shadow == (state & !own) | (ownShadow & own)
    ensures Visible(f) == f.shadow
  {
  }

  lemma Cr0Unmasked(cr0: bv64, fixed0: bv64, fixed1: bv64, unrestricted: bool, own: bv64, ownShadow: bv64, f: Fields)
    requires Legal(fixed0, fixed1) && fixed1 & CR0_PE != 0
    requires f == WriteCr0(cr0, fixed0, fixed1, unrestricted, own, ownShadow)
    ensures f.guest & !f.mask == cr0 & !f.mask
  {
    if unrestricted {
      assert f.guest & !f.mask == cr0 & !f.mask;
    }
  }

  lemma Cr0Own(cr0: bv64, fixed0: bv64, fixed1: bv64, unrestricted: bool, own: bv64, ownShadow: bv64, f: Fields)
    requires f == WriteCr0(cr0, fixed0, fixed1, unrestricted, own, ownShadow)
    ensures own & !f.mask == 0
  {
  }

  /** After vmwrite_cr the guest reads the hypervisor's value, with the bits the hypervisor shadows itself. */
  lemma Cr0Visible(cr0: bv64, fixed0: bv64, fixed1: bv64, unrestricted: bool, own: bv64, ownShadow: bv64, f: Fields)
    requires Legal(fixed0, fixed1) && fixed1 & CR0_PE != 0
    requires f == WriteCr0(cr0, fixed0, fixed1, unrestricted, own, ownShadow)
    ensures Visible(f) == (cr0 & !own) | (ownShadow & own)
  {
    Cr0Unmasked(cr0, fixed0, fixed1, unrestricted, own, ownShadow, f);
    Cr0Own(cr0, fixed0, fixed1, unrestricted, own, ownShadow, f);
    Blend(cr0, f, own, ownShadow);
  }

  lemma Cr4Visible(cr4: bv64, fixed0: bv64, fixed1: bv64, own: bv64, ownShadow: bv64, f: Fields)
    requires Legal(fixed0, fixed1) && f == WriteCr4(cr4, fixed0, fixed1, own, ownShadow)
    ensures Visible(f) == (cr4 & !own) | (ownShadow & own)
  {
  }

  /** The hypervisor's value and the VMCS agree on the masked bits; the guest may have changed the others since
      its last exit. */
  predicate Agrees(state: bv64, f: Fields) {
    Masked(state, f.mask) == Masked(f.shadow, f.mask)
  }

  lemma ReadAgrees(f: Fields)
    ensures Agrees(Visible(f), f)
  {
  }

  lemma ReadBackIs(state: bv64, f: Fields)
    requires Agrees(state, f)
    ensures ReadBack(state, f) == Visible(f)
  {
  }

  /** PE has to be allowed: with PE fixed to 0 and unrestricted guests, a guest in protected mode reads PE as 0. */
  lemma PeMustBeAllowed(cr0: bv64, fixed0: bv64, fixed1: bv64)
    requires Legal(fixed0, fixed1)
    ensures Visible(WriteCr0(cr0, fixed0, fixed1, true, 0, 0)) == cr0 <==> fixed1 & CR0_PE != 0 || cr0 & CR0_PE == 0
  {
  }

  /** The values written obey the fixed bits; PE and PG are left to the guest, as unrestricted guests may. Without
      that feature the entry is legal exactly if the guest has set the ones that are fixed. */
  lemma Cr0Enters(cr0: bv64, fixed0: bv64, fixed1: bv64, unrestricted: bool, own: bv64, ownShadow: bv64)
    requires Legal(fixed0, fixed1)
    ensures var guest := WriteCr0(cr0, fixed0, fixed1, unrestricted, own, ownShadow).guest;
            && guest & !fixed1 == 0 && fixed0 & !guest & !(CR0_PE | CR0_PG) == 0
            && (fixed0 & !guest == 0 <==> fixed0 & !cr0 & (CR0_PE | CR0_PG) == 0)
  {
  }

  lemma Cr4Enters(cr4: bv64, fixed0: bv64, fixed1: bv64, own: bv64, ownShadow: bv64)
    requires Legal(fixed0, fixed1)
    ensures var guest := WriteCr4(cr4, fixed0, fixed1, own, ownShadow).guest;
            guest & !fixed1 == 0 && fixed0 & !guest == 0
  {
  }

  /** A MOV that does not exit is seen as written. */
  lemma MovedVisible(f: Fields, val: bv64)
    requires !MovExits(f, val)
    ensures Visible(Moved(f, val)) == val
  {
  }

  /** Fixed bits never move without an exit. */
  lemma FixedBitsExit(cr0: bv64, fixed0: bv64, fixed1: bv64, unrestricted: bool, val: bv64)
    ensures var f := WriteCr0(cr0, fixed0, fixed1, unrestricted, 0, 0);
            f.mask | CR0_PE | (fixed0 ^ fixed1) == !0 && Moved(f, val).guest & f.mask == f.guest & f.mask
  {
    MaskedStay(WriteCr0(cr0, fixed0, fixed1, unrestricted, 0, 0), val);
  }

  lemma MaskedStay(f: Fields, val: bv64)
    ensures Moved(f, val).guest & f.mask == f.guest & f.mask
  {
  }

  method Written0(cr0: bv64, fixed0: bv64, fixed1: bv64, unrestricted: bool) returns (f: Fields)
    requires Legal(fixed0, fixed1) && fixed1 & CR0_PE != 0
    ensures Visible(f) == cr0 && Agrees(cr0, f)
  {
    f := WriteCr0(cr0, fixed0, fixed1, unrestricted, 0, 0);
    Cr0Visible(cr0, fixed0, fixed1, unrestricted, 0, 0, f);
    ReadAgrees(f);
  }

  method Written4(cr4: bv64, fixed0: bv64, fixed1: bv64) returns (f: Fields)
    requires Legal(fixed0, fixed1)
    ensures Visible(f) == cr4 && Agrees(cr4, f)
  {
    f := WriteCr4(cr4, fixed0, fixed1, 0, 0);
    Cr4Visible(cr4, fixed0, fixed1, 0, 0, f);
    ReadAgrees(f);
  }

  /** A MOV to CR0 that the processor refuses: paging without protected mode, or long mode without PAE. */
  predicate Refused(val: bv64, cr0: bv64, cr4: bv64, lme: bool) {
    || (val & CR0_PG != 0 && val & CR0_PE == 0)
    || (cr0 & CR0_PG == 0 && val & CR0_PG != 0 && lme && cr4 & CR4_PAE == 0)
  }

  datatype Outcome = Done | Fault | RealMode

  /** A vCPU's CR0 and CR4, with no bits shadowed beyond those of vmwrite_cr. */
  class Vcpu {
    const fixed0Cr0: bv64
    const fixed1Cr0: bv64
    const fixed0Cr4: bv64
    const fixed1Cr4: bv64
    const unrestricted: bool

    // The hypervisor's values and the VMCS fields.
    var cr0: bv64
    var cr4: bv64
    var vmcs0: Fields
    var vmcs4: Fields

    // Long mode: enabled, active.
    var lme: bool
    var lma: bool

    ghost predicate Valid()
      reads this
    {
      && Legal(fixed0Cr0, fixed1Cr0) && Legal(fixed0Cr4, fixed1Cr4) && fixed1Cr0 & CR0_PE != 0
      && Agrees(cr0, vmcs0) && Agrees(cr4, vmcs4)
    }

    /** vmwrite_cr: the guest reads the hypervisor's values. */
    method WriteRegisters()
      requires Legal(fixed0Cr0, fixed1Cr0) && Legal(fixed0Cr4, fixed1Cr4) && fixed1Cr0 & CR0_PE != 0
      modifies this`vmcs0, this`vmcs4
      ensures Valid() && Visible(vmcs0) == cr0 && Visible(vmcs4) == cr4
    {
      vmcs0 := Written0(cr0, fixed0Cr0, fixed1Cr0, unrestricted);
      vmcs4 := Written4(cr4, fixed0Cr4, fixed1Cr4);
    }

    /** vmread_cr: the hypervisor's values are what the guest reads. */
    method ReadRegisters()
      requires Valid()
      modifies this`cr0, this`cr4
      ensures Valid() && cr0 == Visible(vmcs0) && cr4 == Visible(vmcs4)
    {
      ReadBackIs(cr0, vmcs0);
      cr0 := ReadBack(cr0, vmcs0);
      ReadAgrees(vmcs0);
      ReadBackIs(cr4, vmcs4);
      cr4 := ReadBack(cr4, vmcs4);
      ReadAgrees(vmcs4);
    }

    /** A guest MOV to CR0: whether the processor does it alone or it exits, is read back, emulated by
        exit_cr_access and written again, the guest then reads what it wrote, and CR4 as before. */
    method MovToCr0(val: bv64) returns (outcome: Outcome)
      requires Valid()
      modifies this`cr0, this`cr4, this`vmcs0, this`vmcs4
      ensures Valid() && Visible(vmcs4) == old(Visible(vmcs4))
      ensures Visible(vmcs0) == if outcome == Done then val else old(Visible(vmcs0))
      ensures outcome == Fault <==> Refused(val, old(Visible(vmcs0)), old(Visible(vmcs4)), lme)
      ensures outcome == RealMode ==> !unrestricted && old(Visible(vmcs0)) & CR0_PE != 0 && val & CR0_PE == 0
    {
      if !MovExits(vmcs0, val) {
        if Refused(val, Visible(vmcs0), Visible(vmcs4), lme) {
          return Fault;
        }
        MovedVisible(vmcs0, val);
        vmcs0 := Moved(vmcs0, val);
        return Done;
      }
      ReadRegisters();
      if Refused(val, cr0, cr4, lme) {
        return Fault;
      }
      if !unrestricted && cr0 & CR0_PE != 0 && val & CR0_PE == 0 {
        return RealMode;
      }
      cr0 := val;
      WriteRegisters();
      outcome := Done;
    }

    /** A guest MOV to CR4. */
    method MovToCr4(val: bv64) returns (outcome: Outcome)
      requires Valid()
      modifies this`cr0, this`cr4, this`vmcs0, this`vmcs4
      ensures Valid() && Visible(vmcs0) == old(Visible(vmcs0))
      ensures Visible(vmcs4) == if outcome == Done then val else old(Visible(vmcs4))
      ensures outcome == Fault <==> lma && val & CR4_PAE == 0
    {
      if !MovExits(vmcs4, val) {
        if lma && val & CR4_PAE == 0 {
          return Fault;
        }
        MovedVisible(vmcs4, val);
        vmcs4 := Moved(vmcs4, val);
        return Done;
      }
      ReadRegisters();
      if lma && val & CR4_PAE == 0 {
        return Fault;
      }
      cr4 := val;
      WriteRegisters();
      outcome := Done;
    }
  }
}
