/** Edges packed into 64-bit keys. */
module PackedKeys {
  import opened Distances

  const WORD: nat := 0x1_0000_0000

  function EdgeKey(e: Arc): nat
  {
    e.0 * WORD + e.1
  }

  function EdgeOf(key: nat): Arc
  {
    (key / WORD, key % WORD)
  }

  /** Unpacking a packed pair of 32-bit identifiers gives the pair back, and the key fits 64 bits. */
  lemma KeyRoundTrip(e: Arc)
    requires e.0 < 0x1_0000_0000 && e.1 < 0x1_0000_0000
    ensures EdgeOf(EdgeKey(e)) == e && EdgeKey(e) < 0x1_0000_0000_0000_0000
  {
  }
}
