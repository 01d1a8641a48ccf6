/// The register file: sixteen general-purpose registers V0..VF and one
/// spare slot (the source allocates 17 bytes).
module RegisterFile {
  import opened Bytes
  import Chip8Extensions

  const Count: nat := 17

  /// Index of VF, the carry, borrow and collision flag.
  const Flag: nat := 0xF

  class Registers {
    const v: array<Byte>

    ghost predicate Valid()
    {
      v.Length == Count
    }

    constructor ()
      ensures Valid() && fresh(v)
      ensures forall k :: 0 <= k < Count ==> v[k] == 0
    {
      v := new Byte[Count](_ => 0);
    }

    /// The indexer's setter. An index outside the 17 slots is an array
    /// fault in the source and is excluded here.
    method Set(i: int, value: Byte)
      requires Valid() && 0 <= i < Count
      modifies v
      ensures Valid()
      ensures v[..] == old(v[..])[i := value]
      ensures v[i] == value
      ensures forall k :: 0 <= k < Count && k != i ==> v[k] == old(v[k])
    {
      v[i] := value;
    }

    /// Every register becomes 0.
    method Clear()
      requires Valid()
      modifies v
      ensures Valid()
      ensures forall k :: 0 <= k < Count ==> v[k] == 0
    {
      Chip8Extensions.ClearBytes(v);
    }
  }
}
