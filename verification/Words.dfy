/** The 32-bit machine word. */
module Words {

  /** How many values a word has. */
  const WORD := 0x1_0000_0000
}
