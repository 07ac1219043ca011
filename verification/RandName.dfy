/** The random suffix of stream and shared-memory names. */
module RandName {

  const LETTERS := 6

  function Letter(r: nat): char {
    ('A' as int + r % 16 + (r / 16 % 2) * 32) as char
  }

  function Encode(r: nat, n: nat): string {
    if n == 0 then [] else [Letter(r)] + Encode(r / 32, n - 1)
  }

  function LetterValue(c: char): int {
    if c >= 'a' then c as int - 'a' as int + 16 else c as int - 'A' as int
  }

  function Decode(s: string): int {
    if s == [] then 0 else LetterValue(s[0]) + 32 * Decode(s[1..])
  }

  function Pow32(n: nat): nat {
    if n == 0 then 1 else 32 * Pow32(n - 1)
  }

  /** n letters carry 5n bits, five to a letter, and a decoder recovers them. */
  lemma {:induction false} DecodeEncode(r: nat, n: nat)
    requires r < Pow32(n)
    ensures |Encode(r, n)| == n
    ensures Decode(Encode(r, n)) == r
  {
    if n > 0 {
      DecodeEncode(r / 32, n - 1);
      assert Encode(r, n)[1..] == Encode(r / 32, n - 1);
      LetterCarriesFiveBits(r);
    }
  }

  lemma LetterCarriesFiveBits(r: nat)
    ensures LetterValue(Letter(r)) == r % 32
    ensures 'A' <= Letter(r) <= 'P' || 'a' <= Letter(r) <= 'p'
  {
    assert r % 32 == r % 16 + (r / 16 % 2) * 16;
  }

  /** Every nanosecond value has its own name. */
  lemma NamesAreDistinct(a: nat, b: nat)
    requires a < 1_000_000_000 && b < 1_000_000_000
    ensures Encode(a, LETTERS) == Encode(b, LETTERS) <==> a == b
  {
    assert Pow32(2) == 1024 && Pow32(4) == 0x10_0000 && Pow32(6) == 0x4000_0000;
    DecodeEncode(a, LETTERS);
    DecodeEncode(b, LETTERS);
  }

  lemma EncodeStep(done: string, r: nat, n: nat)
    requires n > 0
    ensures done + Encode(r, n) == done + [Letter(r)] + Encode(r / 32, n - 1)
  {
  }

  /** The loop shifts five bits out for each letter. */
  method Randname(buf: array<char>, nsec: nat)
    requires buf.Length == LETTERS
    requires forall i :: 0 <= i < LETTERS ==> buf[i] == 'X'
    modifies buf
    ensures buf[..] == Encode(nsec, LETTERS)
  {
    var r := nsec;
    for i := 0 to LETTERS
      invariant forall j :: i <= j < LETTERS ==> buf[j] == 'X'
      invariant buf[..i] + Encode(r, LETTERS - i) == Encode(nsec, LETTERS)
    {
      assert buf[i] == 'X';
      EncodeStep(buf[..i], r, LETTERS - i);
      buf[i] := ('A' as int + r % 16 + (r / 16 % 2) * 32) as char;
      assert buf[..i + 1] == buf[..i] + [Letter(r)];
      r := r / 32;
    }
    assert buf[..] == buf[..LETTERS];
  }
}
