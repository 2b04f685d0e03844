/** Kernel-side vocabulary shared by the machine driver's model: C integer
    widths, optional pointers and opaque device-tree node references. */
module Kernel {

  /** Number of values of a 32-bit `unsigned int`. */
  const UintModulus: nat := 0x1_0000_0000

  /** A C `int` as returned by the kernel's status-returning calls. */
  newtype int32 = x: int | -0x8000_0000 <= x < 0x8000_0000

  /** The implicit C conversion of an `int` to `unsigned int` (modulo 2^32). */
  function ToUnsigned(x: int32): (u: nat)
    ensures u < UintModulus
    ensures x >= 0 ==> u == x as int
    ensures x < 0 ==> u == x as int + UintModulus
  {
    (x as int) % UintModulus
  }

  /** A nullable pointer: `None` stands for NULL. */
  datatype Option<T> = None | Some(value: T)

  /** An opaque `struct device_node *` handed out by the device-tree lookup. */
  datatype NodeRef = NodeRef(handle: nat)

  /** An opaque `struct device *` of a platform device. */
  datatype DeviceRef = DeviceRef(id: nat)
}
