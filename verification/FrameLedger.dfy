/** Who refers to which page frame.

    Every use of a frame is a reference: a process's page directory, a present
    page-directory entry (a page table), a present page-table entry (a user
    page), or a block the kernel got from `kmalloc(PAGE)`.  A ledger maps each
    reference to its frame; `pg_count` of a frame is the number of its holders.
 */
module FrameLedger {

  datatype Ref =
    | Dir(s: nat)                       // page directory of address space s
    | Table(s: nat, d: nat)             // page table named by directory entry d of s
    | Leaf(s: nat, d: nat, t: nat)      // user page named by entry t of that table
    | Kern(f: nat)                      // frame f held by the kernel itself

  type Ledger = map<Ref, nat>
}
