/** Four-byte big-endian length prefixes, shared by the IPC frames and the network helper frames. */
module LengthPrefix {
  type Byte = n: nat | n < 256
  type U32 = n: nat | n < 0x1_0000_0000
  type Bytes = seq<Byte>

  const PREFIX_BYTES: nat := 4

  /** `u32::to_be_bytes`. */
  function Prefix(n: U32): (b: Bytes)
    ensures |b| == PREFIX_BYTES
  {
    [n / 0x100 / 0x100 / 0x100, n / 0x100 / 0x100 % 0x100, n / 0x100 % 0x100, n % 0x100]
  }

  /** `u32::from_be_bytes`. */
  function Length(b: Bytes): U32
    requires |b| == PREFIX_BYTES
  {
    ((b[0] as int * 0x100 + b[1]) * 0x100 + b[2]) * 0x100 + b[3]
  }

  lemma LengthOfPrefix(n: U32)
    ensures Length(Prefix(n)) == n
  {
    var h, m := n / 0x100, n / 0x100 / 0x100;
    assert n == h * 0x100 + n % 0x100;
    assert h == m * 0x100 + h % 0x100;
    assert m == m / 0x100 * 0x100 + m % 0x100;
  }

  /** The most significant byte comes first. */
  lemma PrefixIsBigEndian(n: U32)
    ensures var b := Prefix(n);
            n == b[0] as int * 0x100_0000 + b[1] as int * 0x1_0000 + b[2] as int * 0x100 + b[3]
  {
    LengthOfPrefix(n);
  }

  lemma DigitSplit(h: nat, d: Byte)
    ensures (h * 0x100 + d) / 0x100 == h && (h * 0x100 + d) % 0x100 == d
  {
  }

  lemma PrefixOfLength(b: Bytes)
    requires |b| == PREFIX_BYTES
    ensures Prefix(Length(b)) == b
  {
    DigitSplit(b[0] as int * 0x100 + b[1], b[2]);
    DigitSplit((b[0] as int * 0x100 + b[1]) * 0x100 + b[2], b[3]);
    DigitSplit(b[0], b[1]);
  }

  type Payload = p: Bytes | |p| < 0x1_0000_0000

  function Framed(p: Payload): Bytes
  {
    Prefix(|p|) + p
  }

  function Flatten(ps: seq<Payload>): Bytes
  {
    if ps == [] then [] else Framed(ps[0]) + Flatten(ps[1..])
  }

  lemma Assoc(a: Bytes, b: Bytes, c: Bytes)
    ensures a + (b + c) == (a + b) + c
  {
  }

  /** What stands at the head of a byte stream. */
  datatype Head =
    | NoBytes
    | ShortPrefix
    | ShortPayload(length: U32)
    | Whole(payload: Payload, rest: Bytes)

  function HeadOf(s: Bytes): (h: Head)
    ensures h.Whole? ==> |h.rest| < |s|
  {
    if s == [] then NoBytes
    else if |s| < PREFIX_BYTES then ShortPrefix
    else
      var length := Length(s[..PREFIX_BYTES]);
      if |s| < PREFIX_BYTES + length then ShortPayload(length)
      else Whole(s[PREFIX_BYTES..PREFIX_BYTES + length], s[PREFIX_BYTES + length..])
  }

  lemma HeadOfFramed(p: Payload, rest: Bytes)
    ensures HeadOf(Framed(p) + rest) == Whole(p, rest)
  {
    var s := Framed(p) + rest;
    LengthOfPrefix(|p|);
    assert s[..PREFIX_BYTES] == Prefix(|p|);
    assert s[PREFIX_BYTES..PREFIX_BYTES + |p|] == p;
    assert s[PREFIX_BYTES + |p|..] == rest;
  }

  lemma WholeIsFramed(s: Bytes)
    requires HeadOf(s).Whole?
    ensures s == Framed(HeadOf(s).payload) + HeadOf(s).rest
  {
    PrefixOfLength(s[..PREFIX_BYTES]);
  }

  /** The complete frames of a stream, in order. */
  function Payloads(s: Bytes): seq<Payload>
  {
    match HeadOf(s)
    case Whole(p, rest) => [p] + Payloads(rest)
    case _ => []
  }

  /** What is left after them: never a complete frame. */
  function Leftover(s: Bytes): (rest: Bytes)
    ensures !HeadOf(rest).Whole?
  {
    match HeadOf(s)
    case Whole(_, rest) => Leftover(rest)
    case _ => s
  }

  lemma {:induction false} FlattenAppend(ps: seq<Payload>, qs: seq<Payload>)
    ensures Flatten(ps + qs) == Flatten(ps) + Flatten(qs)
  {
    if ps == [] {
      assert ps + qs == qs;
    } else {
      assert (ps + qs)[1..] == ps[1..] + qs;
      FlattenAppend(ps[1..], qs);
    }
  }

  lemma FlattenCons(p: Payload, ps: seq<Payload>)
    ensures Flatten([p] + ps) == Framed(p) + Flatten(ps)
  {
    assert ([p] + ps)[1..] == ps;
  }

  /** A stream is its complete frames followed by the leftover. */
  lemma {:induction false} StreamIsItsFrames(s: Bytes)
    ensures s == Flatten(Payloads(s)) + Leftover(s)
    decreases |s|
  {
    if HeadOf(s).Whole? {
      WholeIsFramed(s);
      StreamIsItsFrames(HeadOf(s).rest);
      assert Payloads(s)[1..] == Payloads(HeadOf(s).rest);
    }
  }

  /** And any such decomposition is that one. */
  lemma {:induction false} FramesAreUnique(ps: seq<Payload>, rest: Bytes)
    requires !HeadOf(rest).Whole?
    ensures Payloads(Flatten(ps) + rest) == ps
    ensures Leftover(Flatten(ps) + rest) == rest
  {
    if ps == [] {
      assert Flatten(ps) + rest == rest;
    } else {
      var tail := Flatten(ps[1..]) + rest;
      assert Flatten(ps) + rest == Framed(ps[0]) + tail;
      HeadOfFramed(ps[0], tail);
      FramesAreUnique(ps[1..], rest);
    }
  }
}
