/** C strings: a text ends where its terminator stands, and is kept here without it. */
module CText {
  const NUL: char := '\0'

  /** Reading at or past the end gives NUL. */
  function At(text: string, i: nat): char {
    if i < |text| then text[i] else NUL
  }
}
