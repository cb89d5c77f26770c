/** The page tables that the boot loader builds (bootmgr/stage2/paging.asm), entry by entry. */
module BootPaging {
  import opened Memory
  import opened PageTable
  import opened AddressSpaces

  /** The page directory entries, seen as one array over eight frames. */
  ghost predicate Directories(m: Mem, n: nat) {
    forall f, i :: BOOT_PD <= f < BOOT_PD + 8 && 0 <= i < 512 && (f - BOOT_PD) * 512 + i < n ==>
      Entry(m, f, i) == ((f - BOOT_PD) * 512 + i) * 0x20_0000 + 0x83
  }

  ghost predicate RootDone(m: Mem) {
    forall i :: 0 <= i < 512 ==> Entry(m, BOOT_ROOT, i) == if i == 0 || i == 256 then BOOT_PDPT * 4096 + 3 else 0
  }

  ghost predicate PdptDone(m: Mem, k: nat) {
    forall i :: 0 <= i < 512 ==> Entry(m, BOOT_PDPT, i) == if i < k then (BOOT_PD + i) * 4096 + 3 else 0
  }

  /** `or eax, 3` on an aligned address. */
  lemma OrThree(f: nat)
    requires f < 4096
    ensures BitOr(f * 4096, 3) == f * 4096 + 3
  {
    OrFlags(f, 3);
  }

  /** `or eax, 0x83` on a multiple of 2 MB. */
  lemma OrLarge(q: nat)
    ensures BitOr(q * 0x20_0000, 0x83) == q * 0x20_0000 + 0x83
  {
    assert Pow2(8) == 256;
    BitOrAligned(q * 0x2000, 0x83, 8);
    assert q * 0x2000 * 256 == q * 0x20_0000;
  }

  lemma RootWritten(m: Mem)
    requires forall i :: 0 <= i < 512 ==> Entry(m, BOOT_ROOT, i) == 0 && Entry(m, BOOT_PDPT, i) == 0
    ensures var r := WithEntry(WithEntry(m, BOOT_ROOT, 0, BOOT_PDPT * 4096 + 3), BOOT_ROOT, 256, BOOT_PDPT * 4096 + 3);
            RootDone(r) && PdptDone(r, 0)
  {
    hide Entry, WithEntry;
    EntryAfterWrite(m, BOOT_ROOT, 0, BOOT_PDPT * 4096 + 3);
    EntryAfterWrite(WithEntry(m, BOOT_ROOT, 0, BOOT_PDPT * 4096 + 3), BOOT_ROOT, 256, BOOT_PDPT * 4096 + 3);
  }

  lemma PdptWritten(m: Mem, k: nat)
    requires RootDone(m) && PdptDone(m, k) && k < 8
    ensures var r := WithEntry(m, BOOT_PDPT, k, (BOOT_PD + k) * 4096 + 3); RootDone(r) && PdptDone(r, k + 1)
  {
    hide Entry, WithEntry;
    EntryAfterWrite(m, BOOT_PDPT, k, (BOOT_PD + k) * 4096 + 3);
  }

  lemma DirectoryWritten(m: Mem, n: nat)
    requires RootDone(m) && PdptDone(m, 8) && Directories(m, n) && n < 4096
    ensures var r := WithEntry(m, BOOT_PD + n / 512, n % 512, n * 0x20_0000 + 0x83);
            RootDone(r) && PdptDone(r, 8) && Directories(r, n + 1)
  {
    hide Entry, WithEntry;
    EntryAfterWrite(m, BOOT_PD + n / 512, n % 512, n * 0x20_0000 + 0x83);
    var r := WithEntry(m, BOOT_PD + n / 512, n % 512, n * 0x20_0000 + 0x83);
    forall f, i | BOOT_PD <= f < BOOT_PD + 8 && 0 <= i < 512 && (f - BOOT_PD) * 512 + i < n + 1
      ensures Entry(r, f, i) == ((f - BOOT_PD) * 512 + i) * 0x20_0000 + 0x83
    {
      if (f - BOOT_PD) * 512 + i == n {
        assert f == BOOT_PD + n / 512 && i == n % 512;
      }
    }
  }

  /** `setup_paging`: the entries are built from 32-bit halves, `ebx` and `edx`. */
  method SetupPaging(m: Mem) returns (r: Mem)
    ensures BootTables(r)
  {
    hide Entry, WithEntry, BitOr, Cleared, RootDone, PdptDone, Directories;
    EntryAfterClear(m, BOOT_ROOT);
    r := Cleared(m, BOOT_ROOT);
    EntryAfterClear(r, BOOT_PDPT);
    r := Cleared(r, BOOT_PDPT);
    OrThree(BOOT_PDPT);
    RootWritten(r);
    var pdpt := BitOr(BOOT_PDPT * 4096, 3);
    r := WithEntry(r, BOOT_ROOT, 0, pdpt);
    r := WithEntry(r, BOOT_ROOT, 256, pdpt);

    var k: nat, ebx: nat := 0, BOOT_PD * 4096;
    while k < 8
      invariant k <= 8 && ebx == (BOOT_PD + k) * 4096 && RootDone(r) && PdptDone(r, k)
    {
      OrThree(BOOT_PD + k);
      PdptWritten(r, k);
      r := WithEntry(r, BOOT_PDPT, k, BitOr(ebx, 3));
      k, ebx := k + 1, ebx + 4096;
    }

    var n: nat, edx: nat := 0, 0;
    ebx := 0;
    NoDirectories(r);
    while n < 4096
      invariant n <= 4096 && ebx < DWORD && ebx % 0x20_0000 == 0 && edx * DWORD + ebx == n * 0x20_0000
      invariant RootDone(r) && PdptDone(r, 8) && Directories(r, n)
    {
      OrLarge(ebx / 0x20_0000);
      DirectoryWritten(r, n);
      r := WithEntry(r, BOOT_PD + n / 512, n % 512, edx * DWORD + BitOr(ebx, 0x83));
      n, ebx := n + 1, (ebx + 0x20_0000) % DWORD;
      if ebx == 0 {
        edx := edx + 1;
      }
    }
    Assembled(r);
  }

  lemma NoDirectories(m: Mem)
    ensures Directories(m, 0)
  {
  }

  lemma Assembled(m: Mem)
    requires RootDone(m) && PdptDone(m, 8) && Directories(m, 4096)
    ensures BootTables(m)
  {
    hide Entry;
  }
}
