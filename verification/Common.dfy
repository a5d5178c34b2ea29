/** Small notions that several parts of the system share. */
module Common {
  const U32_MAX: nat := 0xffff_ffff
  const U64_MAX: nat := 0xffff_ffff_ffff_ffff

  /** 128-bit identifiers; zero is the nil identifier. */
  type Uuid = nat

  /** A name, key or reason: not empty, not over `max` bytes, no NUL; a `char` stands for one byte of UTF-8. */
  predicate ValidText(s: string, max: nat)
  {
    0 < |s| <= max && '\0' !in s
  }

  /** The concatenation of a list of parts. */
  function Flat<T>(parts: seq<seq<T>>): seq<T>
  {
    if parts == [] then [] else Flat(parts[..|parts| - 1]) + parts[|parts| - 1]
  }
}
