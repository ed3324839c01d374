/** 32-bit words and their bytes. The bit-vector facts are kept here, each in a lemma of its
    own; elsewhere words are handled through these names. */
module HashWord {
  import opened Bits

  type word = bv32

  /** Addition modulo 2^32. */
  function Add(x: word, y: word): word { x + y }

  /** The big-endian value of four bytes. */
  function WordValue(a: byte, b: byte, c: byte, d: byte): word {
    ((a as word * 256 + b as word) * 256 + c as word) * 256 + d as word
  }

  /** A word cut to a byte. */
  function ByteOf(w: word): byte { (w & 0xff) as byte }

  lemma IntBack(w: word)
    ensures (w as int) as word == w
  {
  }

  lemma ByteBack(w: word)
    ensures ByteOf(w) as word == w & 0xff
  {
    IntBack(w & 0xff);
  }

  lemma BytesForms(w: word)
    ensures ((((w >> 24) & 0xff) * 256 + ((w >> 16) & 0xff)) * 256 + ((w >> 8) & 0xff)) * 256 + (w & 0xff) == w
  {
  }

  lemma WordSplits(w: word)
    ensures WordValue(ByteOf(w >> 24), ByteOf(w >> 16), ByteOf(w >> 8), ByteOf(w)) == w
  {
    ByteBack(w >> 24); ByteBack(w >> 16); ByteBack(w >> 8); ByteBack(w);
    BytesForms(w);
    hide ByteOf;
  }

  // ----- words put together by shifts

  function Shifted(a: byte, b: byte, c: byte, d: byte): word {
    (a as word << 24) | (b as word << 16) | (c as word << 8) | d as word
  }

  lemma BytesAreSmall(b: byte)
    ensures b as word < 256
  {
  }

  lemma WordForms(a: word, b: word, c: word, d: word)
    requires a < 256 && b < 256 && c < 256 && d < 256
    ensures (a << 24) | (b << 16) | (c << 8) | d == ((a * 256 + b) * 256 + c) * 256 + d
  {
  }

  lemma ShiftedValue(a: byte, b: byte, c: byte, d: byte)
    ensures Shifted(a, b, c, d) == WordValue(a, b, c, d)
  {
    BytesAreSmall(a); BytesAreSmall(b); BytesAreSmall(c); BytesAreSmall(d);
    WordForms(a as word, b as word, c as word, d as word);
  }

  lemma OrCommutes(a: word, b: word, c: word, d: word)
    ensures d | c | b | a == a | b | c | d
  {
  }

  /** The same put together from the low end. */
  function ShiftedUp(a: byte, b: byte, c: byte, d: byte): word {
    d as word | (c as word << 8) | (b as word << 16) | (a as word << 24)
  }

  lemma ShiftedUpValue(a: byte, b: byte, c: byte, d: byte)
    ensures ShiftedUp(a, b, c, d) == WordValue(a, b, c, d)
  {
    ShiftedValue(a, b, c, d);
    OrCommutes(a as word << 24, b as word << 16, c as word << 8, d as word);
    hide WordValue;
  }

  lemma ChooseForms(x: word, y: word, z: word)
    ensures z ^ (x & (y ^ z)) == (x & y) ^ (!x & z)
    ensures z ^ (x & (y ^ z)) == (x & y) | (!x & z)
  {
  }
}
