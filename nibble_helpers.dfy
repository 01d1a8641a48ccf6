/// Extraction of bytes and nibbles from instruction words.
///
/// The source masks and shifts (`(word & 0xFF00) >> 8`, `byte & 0x0F`, ...)
/// act on non-negative values, so they are written here as division and
/// remainder by the matching power of two.
module NibbleHelpers {
  import opened Bytes

  datatype WordPart = High | Low

  datatype NibblePart = Upper | Lower

  /// Weight of nibble `index` of a word, 1 being the most significant.
  function NibbleWeight(index: int): nat
    requires 1 <= index <= 4
  {
    match index
    case 1 => 0x1000
    case 2 => 0x100
    case 3 => 0x10
    case 4 => 0x1
  }

  /// `byte.GetNibble(whichNibble)`: the upper or lower four bits of a byte.
  function GetNibbleOfByte(b: Byte, whichNibble: NibblePart): (r: Byte)
    ensures r < 0x10
    ensures whichNibble == Upper ==> r * 0x10 <= b < r * 0x10 + 0x10
    ensures whichNibble == Lower ==> (b - r) % 0x10 == 0
  {
    if whichNibble == Lower then b % 0x10 else b / 0x10
  }

  /// `word.GetByte(whichByte)`: the high or low eight bits of a word.
  function GetByte(word: Word, whichByte: WordPart): (r: Byte)
    ensures whichByte == High ==> r * 0x100 <= word < r * 0x100 + 0x100
    ensures whichByte == Low ==> (word - r) % 0x100 == 0
  {
    if whichByte == Low then word % 0x100 else word / 0x100
  }

  /// `word.GetNibble(whichByte, whichNibble)`: a nibble of one byte of a word.
  function GetNibbleOfWord(word: Word, whichByte: WordPart, whichNibble: NibblePart): (r: Byte)
    ensures r < 0x10
    ensures r == word / NibbleWeight(PartIndex(whichByte, whichNibble)) % 0x10
  {
    NibbleOfWordWeight(word, whichByte, whichNibble);
    GetNibbleOfByte(GetByte(word, whichByte), whichNibble)
  }

  lemma NibbleOfWordWeight(word: Word, whichByte: WordPart, whichNibble: NibblePart)
    ensures GetNibbleOfByte(GetByte(word, whichByte), whichNibble)
            == word / NibbleWeight(PartIndex(whichByte, whichNibble)) % 0x10
  {
    match (whichByte, whichNibble)
    case (High, Upper) => HighNibbleOfWord(word);
    case (High, Lower) =>
    case (Low, Upper) => UpperOfLowByte(word);
    case (Low, Lower) =>
  }

  lemma HighNibbleOfWord(word: Word)
    ensures word / 0x100 / 0x10 == word / 0x1000 % 0x10
  {
    var q, m := word / 0x1000, word % 0x1000;
    assert word == 0x1000 * q + m;
    assert word / 0x100 == 0x10 * q + m / 0x100;
  }

  lemma UpperOfLowByte(word: Word)
    ensures word % 0x100 / 0x10 == word / 0x10 % 0x10
  {
    var q, m := word / 0x100, word % 0x100;
    assert word == 0x100 * q + m;
    assert word / 0x10 == 0x10 * q + m / 0x10;
  }

  /// The position (1 = most significant) of a byte/nibble pair in a word.
  function PartIndex(whichByte: WordPart, whichNibble: NibblePart): int
  {
    match (whichByte, whichNibble)
    case (High, Upper) => 1
    case (High, Lower) => 2
    case (Low, Upper) => 3
    case (Low, Lower) => 4
  }

  /// `word.GetNibble(index)`: nibble `index` of a word, 1 being the most
  /// significant; any other index throws (`None`).
  function GetNibbleAt(word: Word, index: int): (r: Option<Byte>)
    ensures r.Some? <==> 1 <= index <= 4
    ensures r.Some? ==> r.value < 0x10 && r.value == word / NibbleWeight(index) % 0x10
  {
    match index
    case 1 => Some(GetNibbleOfWord(word, High, Upper))
    case 2 => Some(GetNibbleOfWord(word, High, Lower))
    case 3 => Some(GetNibbleOfWord(word, Low, Upper))
    case 4 => Some(GetNibbleOfWord(word, Low, Lower))
    case _ => None
  }

  /// The two bytes of a word put back together give the word.
  lemma ByteRoundTrip(word: Word)
    ensures GetByte(word, High) * 0x100 + GetByte(word, Low) == word
  {
  }

  /// The two nibbles of a byte put back together give the byte.
  lemma NibbleRoundTrip(b: Byte)
    ensures GetNibbleOfByte(b, Upper) * 0x10 + GetNibbleOfByte(b, Lower) == b
  {
  }

  /// The four nibbles of a word, most significant first, put back together
  /// give the word.
  lemma WordFromNibbles(word: Word)
    ensures GetNibbleAt(word, 1).value * 0x1000 + GetNibbleAt(word, 2).value * 0x100
            + GetNibbleAt(word, 3).value * 0x10 + GetNibbleAt(word, 4).value == word
  {
  }

  /// The worked example of the unit tests: 0xABCD.
  lemma ExampleWord()
    ensures GetByte(0xABCD, High) == 0xAB && GetByte(0xABCD, Low) == 0xCD
    ensures GetNibbleOfByte(0xAB, Upper) == 0xA && GetNibbleOfByte(0xAB, Lower) == 0xB
    ensures GetNibbleOfWord(0xABCD, High, Upper) == 0xA && GetNibbleOfWord(0xABCD, High, Lower) == 0xB
    ensures GetNibbleOfWord(0xABCD, Low, Upper) == 0xC && GetNibbleOfWord(0xABCD, Low, Lower) == 0xD
  {
  }
}
