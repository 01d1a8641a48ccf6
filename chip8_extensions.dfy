/// In-place clearing of the backing arrays of the hardware components.
module Chip8Extensions {
  import opened Bytes

  /// `byte[].Clear()`: every element becomes 0.
  method ClearBytes(zone: array<Byte>)
    modifies zone
    ensures forall k :: 0 <= k < zone.Length ==> zone[k] == 0
  {
    for i := 0 to zone.Length
      invariant forall k :: 0 <= k < i ==> zone[k] == 0
    {
      zone[i] := 0;
    }
  }

  /// `ushort[].Clear()`: every element becomes 0.
  method ClearWords(zone: array<Word>)
    modifies zone
    ensures forall k :: 0 <= k < zone.Length ==> zone[k] == 0
  {
    for i := 0 to zone.Length
      invariant forall k :: 0 <= k < i ==> zone[k] == 0
    {
      zone[i] := 0;
    }
  }

  /// `bool[].Clear()`: every element becomes false.
  method ClearFlags(zone: array<bool>)
    modifies zone
    ensures forall k :: 0 <= k < zone.Length ==> !zone[k]
  {
    for i := 0 to zone.Length
      invariant forall k :: 0 <= k < i ==> !zone[k]
    {
      zone[i] := false;
    }
  }
}
