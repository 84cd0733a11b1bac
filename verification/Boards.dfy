/** The identity of a PCI device, and which devices the kernel routines touch. */
module Boards {

  datatype Identity = Identity(vendor: bv16, device: bv16, subVendor: bv16, subDevice: bv16)

  predicate IsCmp50(id: Identity) {
    && id.vendor == 0x10de && id.device == 0x1e09
    && ((id.subVendor == 0x10de && id.subDevice == 0x1554) || (id.subVendor == 0x1462 && id.subDevice == 0x371f))
  }
}
