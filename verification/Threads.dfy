/** What the models of shared data structures have in common: pointers in slots, and turns of the scheduler. */
module Threads {
  import opened MachineWords

  /** The address of what is being passed on. */
  type Ptr = Word
  const NULL: Ptr := 0

  /** Any thread may be next; `call` is what it asks for if it is between operations. */
  datatype Turn<+C> = Turn(thread: nat, call: C)

  ghost function Filled(slots: seq<Ptr>, k: nat): int
    requires k < |slots|
  {
    if slots[k] == NULL then 0 else 1
  }

  ghost function Is(v: Ptr): Ptr -> int {
    (x: Ptr) => if x == v then 1 else 0
  }
}
