/** The constants of the address space: `threads/vaddr.h` and `threads/loader.h`. */
module Address {
  const PGSIZE: nat := 0x1000

  /** The bits of an address that say where in its page it is. */
  const PGMASK: nat := 0xFFF

  const NULL: nat := 0

  /** Where kernel addresses start. */
  const PHYS_BASE: nat := 0xC000_0000
}
