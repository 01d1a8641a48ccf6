/// The return-address stack: 24 entries and a stack pointer that starts
/// at -1 and names the top entry.
module CallStack {
  import opened Bytes
  import Chip8Extensions

  const MaxSize: nat := 24

  class Stack {
    var sp: int
    const entries: array<Word>

    ghost predicate Valid()
      reads this
    {
      entries.Length == MaxSize && -1 <= sp < MaxSize
    }

    constructor ()
      ensures Valid() && fresh(entries)
      ensures sp == -1
      ensures forall k :: 0 <= k < MaxSize ==> entries[k] == 0
    {
      sp := -1;
      entries := new Word[MaxSize](_ => 0);
    }

    /// The entry the stack pointer names. On an empty stack (`sp == -1`)
    /// the source indexes `Entries[-1]`, an array fault, so the stack must
    /// not be empty.
    function Head(): (r: Word)
      requires Valid() && sp >= 0
      reads this, entries
      ensures r == entries[sp]
    {
      entries[sp]
    }

    /// The pointer moves up one and the value is stored there. The source
    /// increments first and then faults on `Entries[24]` when the stack is
    /// full, so a full stack (sp == 23) is excluded.
    method Push(value: Word)
      requires Valid() && sp < MaxSize - 1
      modifies this, entries
      ensures Valid()
      ensures sp == old(sp) + 1
      ensures entries[..] == old(entries[..])[sp := value]
      ensures Head() == value
    {
      sp := sp + 1;
      entries[sp] := value;
    }

    /// Returns the head and moves the pointer down one; the entry itself
    /// is not erased.
    method Pop() returns (value: Word)
      requires Valid() && sp >= 0
      modifies this
      ensures Valid()
      ensures value == old(Head())
      ensures sp == old(sp) - 1
      ensures entries[..] == old(entries[..])
    {
      value := Head();
      sp := sp - 1;
    }

    /// Empties the stack and zeroes every entry.
    method Clear()
      requires Valid()
      modifies this, entries
      ensures Valid()
      ensures sp == -1
      ensures forall k :: 0 <= k < MaxSize ==> entries[k] == 0
    {
      sp := -1;
      Chip8Extensions.ClearWords(entries);
    }
  }
}
