/// The 4096-byte address space.
module MemoryUnit {
  import opened Bytes
  import Chip8Extensions

  const Size: nat := 4096

  predicate InRange(address: int)
  {
    0 <= address < Size
  }

  class Memory {
    const cells: array<Byte>

    ghost predicate Valid()
    {
      cells.Length == Size
    }

    constructor ()
      ensures Valid() && fresh(cells)
      ensures forall k :: 0 <= k < Size ==> cells[k] == 0
    {
      cells := new Byte[Size](_ => 0);
    }

    /// The indexer's getter: an address outside [0, 4095] throws
    /// (`None`); any other address yields its byte.
    function Get(address: int): (r: Option<Byte>)
      requires Valid()
      reads cells
      ensures r.Some? <==> InRange(address)
      ensures r.Some? ==> r.value == cells[address]
    {
      if address < 0 || address > 4095 then None else Some(cells[address])
    }

    /// The indexer's setter: an address outside [0, 4095] throws before
    /// anything is written (`ok` is false); otherwise exactly that address
    /// takes the new value.
    method Set(address: int, value: Byte) returns (ok: bool)
      requires Valid()
      modifies cells
      ensures Valid()
      ensures ok <==> InRange(address)
      ensures cells[..] == if ok then old(cells[..])[address := value] else old(cells[..])
      ensures ok ==> Get(address) == Some(value)
      ensures forall a :: InRange(a) && a != address ==> Get(a) == old(Get(a))
    {
      if address < 0 || address > 4095 {
        return false;
      }
      cells[address] := value;
      ok := true;
    }

    /// Every cell becomes 0; the size stays 4096.
    method Clear()
      requires Valid()
      modifies cells
      ensures Valid()
      ensures cells[..] == seq(Size, _ => 0)
      ensures forall a :: InRange(a) ==> Get(a) == Some(0)
    {
      Chip8Extensions.ClearBytes(cells);
      assert cells[..] == seq(Size, _ => 0);
    }
  }
}
