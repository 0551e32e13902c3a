/** Unpadded base32 (RFC 4648, section 6), as the release identities use it: the
    encoder, and a decoder that also reads texts no encoder writes. */
module Base32 {
  import opened Wrappers

  /** Every char is one byte. */
  predicate IsBytes(s: string)
  {
    forall i | 0 <= i < |s| :: s[i] as int < 256
  }

  const ALPHABET := "ABCDEFGHIJKLMNOPQRSTUVWXYZ234567"

  predicate IsQuintet(q: int)
  {
    0 <= q < 32
  }

  function Letter(q: int): char
    requires IsQuintet(q)
  {
    if q < 26 then ('A' as int + q) as char else ('2' as int + q - 26) as char
  }

  function Quintet(c: char): Option<int>
  {
    if 'A' <= c <= 'Z' then Some(c as int - 'A' as int)
    else if '2' <= c <= '7' then Some(c as int - '2' as int + 26)
    else None
  }

  lemma LetterRoundTrip(q: int)
    requires IsQuintet(q)
    ensures Quintet(Letter(q)) == Some(q) && Letter(q) == ALPHABET[q]
  {
  }

  // ---------- one group ----------

  /** How many letters a group of so many bytes takes. */
  function LettersFor(bytes: nat): nat
    requires bytes <= 5
  {
    match bytes
    case 0 => 0
    case 1 => 2
    case 2 => 4
    case 3 => 5
    case 4 => 7
    case _ => 8
  }

  /** How many bytes a group of so many letters gives: the library decodes groups
      of 2, 4, 5, 7 and 8 letters and nothing of any other. */
  function BytesFor(letters: nat): (r: nat)
    requires letters <= 8
    ensures r <= 5
  {
    match letters
    case 8 => 5
    case 7 => 4
    case 5 => 3
    case 4 => 2
    case 2 => 1
    case _ => 0
  }

  function ByteAt(s: string, i: nat): int
  {
    if i < |s| then s[i] as int else 0
  }

  function QuintetsOf(b0: int, b1: int, b2: int, b3: int, b4: int): seq<int>
  {
    [b0 / 8, b0 % 8 * 4 + b1 / 64, b1 / 2 % 32, b1 % 2 * 16 + b2 / 16, b2 % 16 * 2 + b3 / 128, b3 / 4 % 32, b3 % 4 * 8 + b4 / 32, b4 % 32]
  }

  /** The bytes of a group, from its eight quintets. */
  function BytesOf(q: seq<int>): seq<int>
    requires |q| == 8
  {
    [q[0] * 8 + q[1] / 4, q[1] % 4 * 64 + q[2] * 2 + q[3] / 16, q[3] % 16 * 16 + q[4] / 2, q[4] % 2 * 128 + q[5] * 4 + q[6] / 8,
     q[6] % 8 * 32 + q[7]]
  }

  predicate IsByte(b: int)
  {
    0 <= b < 256
  }

  lemma FirstBytesBack(b0: int, b1: int, b2: int)
    requires IsByte(b0) && IsByte(b1) && IsByte(b2)
    ensures IsQuintet(b0 / 8) && IsQuintet(b0 % 8 * 4 + b1 / 64) && IsQuintet(b1 / 2 % 32) && IsQuintet(b1 % 2 * 16 + b2 / 16)
    ensures (b0 / 8) * 8 + (b0 % 8 * 4 + b1 / 64) / 4 == b0
    ensures (b0 % 8 * 4 + b1 / 64) % 4 * 64 + b1 / 2 % 32 * 2 + (b1 % 2 * 16 + b2 / 16) / 16 == b1
  {
  }

  lemma MiddleByteBack(b1: int, b2: int, b3: int)
    requires IsByte(b1) && IsByte(b2) && IsByte(b3)
    ensures IsQuintet(b2 % 16 * 2 + b3 / 128)
    ensures (b1 % 2 * 16 + b2 / 16) % 16 * 16 + (b2 % 16 * 2 + b3 / 128) / 2 == b2
  {
    assert (b1 % 2 * 16 + b2 / 16) % 16 == b2 / 16;
    assert (b2 % 16 * 2 + b3 / 128) / 2 == b2 % 16;
  }

  lemma FourthByteBack(b2: int, b3: int, b4: int)
    requires IsByte(b2) && IsByte(b3) && IsByte(b4)
    ensures IsQuintet(b3 / 4 % 32) && IsQuintet(b3 % 4 * 8 + b4 / 32)
    ensures (b2 % 16 * 2 + b3 / 128) % 2 * 128 + b3 / 4 % 32 * 4 + (b3 % 4 * 8 + b4 / 32) / 8 == b3
  {
    assert (b2 % 16 * 2 + b3 / 128) % 2 == b3 / 128;
    assert (b3 % 4 * 8 + b4 / 32) / 8 == b3 % 4;
  }

  lemma LastByteBack(b3: int, b4: int)
    requires IsByte(b3) && IsByte(b4)
    ensures IsQuintet(b4 % 32) && (b3 % 4 * 8 + b4 / 32) % 8 * 32 + b4 % 32 == b4
  {
    assert (b3 % 4 * 8 + b4 / 32) % 8 == b4 / 32;
  }

  lemma GroupBack(b0: int, b1: int, b2: int, b3: int, b4: int)
    requires IsByte(b0) && IsByte(b1) && IsByte(b2) && IsByte(b3) && IsByte(b4)
    ensures forall i | 0 <= i < 8 :: IsQuintet(QuintetsOf(b0, b1, b2, b3, b4)[i])
    ensures BytesOf(QuintetsOf(b0, b1, b2, b3, b4)) == [b0, b1, b2, b3, b4]
  {
    FirstBytesBack(b0, b1, b2);
    MiddleByteBack(b1, b2, b3);
    FourthByteBack(b2, b3, b4);
    LastByteBack(b3, b4);
  }

  /** The quintets of a group of at most five bytes, missing bytes read as zero. */
  function GroupQuintets(s: string): (q: seq<int>)
    requires IsBytes(s)
    ensures |q| == 8 && forall i | 0 <= i < 8 :: IsQuintet(q[i])
  {
    GroupBack(ByteAt(s, 0), ByteAt(s, 1), ByteAt(s, 2), ByteAt(s, 3), ByteAt(s, 4));
    QuintetsOf(ByteAt(s, 0), ByteAt(s, 1), ByteAt(s, 2), ByteAt(s, 3), ByteAt(s, 4))
  }

  function EncodeGroup(s: string): (r: string)
    requires IsBytes(s) && |s| <= 5
    ensures |r| == LettersFor(|s|)
  {
    seq(LettersFor(|s|), i requires 0 <= i < LettersFor(|s|) => Letter(GroupQuintets(s)[i]))
  }

  function Encode(s: string): string
    requires IsBytes(s)
  {
    if |s| <= 5 then EncodeGroup(s) else EncodeGroup(s[..5]) + Encode(s[5..])
  }

  function QuintetAt(letters: string, i: nat): int
  {
    if i < |letters| && Quintet(letters[i]).Some? then Quintet(letters[i]).value else 0
  }

  /** The bytes a group of at most eight letters gives. */
  function DecodeGroup(letters: string): string
    requires |letters| <= 8
  {
    var q := seq(8, i requires 0 <= i < 8 => QuintetAt(letters, i));
    var bytes := BytesOf(q);
    seq(BytesFor(|letters|), i requires 0 <= i < BytesFor(|letters|) => (bytes[i] % 256) as char)
  }

  predicate IsLetters(letters: string)
  {
    forall i | 0 <= i < |letters| :: Quintet(letters[i]).Some?
  }

  function DecodeLetters(letters: string): string
  {
    if |letters| <= 8 then DecodeGroup(letters) else DecodeGroup(letters[..8]) + DecodeLetters(letters[8..])
  }

  function WithoutNewlines(text: string): string
  {
    if text == "" then ""
    else (if text[0] == '\r' || text[0] == '\n' then "" else [text[0]]) + WithoutNewlines(text[1..])
  }

  /** Newlines are skipped; any other byte outside the alphabet is refused. */
  function Decode(text: string): Option<string>
  {
    if IsLetters(WithoutNewlines(text)) then Some(DecodeLetters(WithoutNewlines(text))) else None
  }

  // ---------- the round trip ----------

  lemma GroupRoundTrip(s: string)
    requires IsBytes(s) && |s| <= 5
    ensures IsLetters(EncodeGroup(s)) && DecodeGroup(EncodeGroup(s)) == s
  {
    hide GroupQuintets, Letter, Quintet, BytesOf, QuintetsOf;
    var letters, q := EncodeGroup(s), GroupQuintets(s);
    forall i | 0 <= i < |letters| ensures QuintetAt(letters, i) == q[i] && Quintet(letters[i]).Some? {
      LetterRoundTrip(q[i]);
    }
    MissingQuintets(s);
    var read := seq(8, i requires 0 <= i < 8 => QuintetAt(letters, i));
    assert read == q;
    GroupBytes(s);
    assert BytesFor(|letters|) == |s|;
    forall i | 0 <= i < |s| ensures DecodeGroup(letters)[i] == s[i] {
      assert BytesOf(q)[i] == s[i] as int;
    }
  }

  lemma GroupBytes(s: string)
    requires IsBytes(s) && |s| <= 5
    ensures |BytesOf(GroupQuintets(s))| == 5 && forall i | 0 <= i < |s| :: BytesOf(GroupQuintets(s))[i] == s[i] as int
  {
    hide QuintetsOf, BytesOf;
    var b0, b1, b2, b3, b4 := ByteAt(s, 0), ByteAt(s, 1), ByteAt(s, 2), ByteAt(s, 3), ByteAt(s, 4);
    GroupBack(b0, b1, b2, b3, b4);
    assert BytesOf(GroupQuintets(s)) == [b0, b1, b2, b3, b4];
  }

  /** The letters a short group does not write are zero. */
  lemma MissingQuintets(s: string)
    requires IsBytes(s) && |s| <= 5
    ensures forall i | LettersFor(|s|) <= i < 8 :: GroupQuintets(s)[i] == 0
  {
    hide QuintetsOf;
    ZeroTail(ByteAt(s, 0), ByteAt(s, 1), ByteAt(s, 2), ByteAt(s, 3), ByteAt(s, 4));
  }

  lemma ZeroTail(b0: int, b1: int, b2: int, b3: int, b4: int)
    ensures var q := QuintetsOf(b0, b1, b2, b3, b4);
            && (b4 == 0 ==> q[7] == 0)
            && (b4 == 0 && b3 == 0 ==> q[6] == 0 && q[5] == 0)
            && (b3 == 0 && b2 == 0 ==> q[4] == 0)
            && (b2 == 0 && b1 == 0 ==> q[3] == 0 && q[2] == 0)
            && (b1 == 0 && b0 == 0 ==> q[1] == 0 && q[0] == 0)
    ensures |QuintetsOf(b0, b1, b2, b3, b4)| == 8
  {
  }

  lemma {:induction false} EncodedIsLetters(s: string)
    requires IsBytes(s)
    ensures IsLetters(Encode(s)) && DecodeLetters(Encode(s)) == s
    ensures s != "" ==> Encode(s) != ""
  {
    hide EncodeGroup, DecodeGroup;
    if |s| <= 5 {
      GroupRoundTrip(s);
    } else {
      GroupRoundTrip(s[..5]);
      EncodedIsLetters(s[5..]);
      var all := Encode(s);
      assert all[..8] == EncodeGroup(s[..5]) && all[8..] == Encode(s[5..]);
    }
  }

  lemma {:induction false} LettersHaveNoNewlines(letters: string)
    requires IsLetters(letters)
    ensures WithoutNewlines(letters) == letters
  {
    if letters != "" {
      assert forall i | 0 <= i < |letters[1..]| :: letters[1..][i] == letters[i + 1];
      LettersHaveNoNewlines(letters[1..]);
      assert Quintet(letters[0]).Some?;
      assert letters == [letters[0]] + letters[1..];
    }
  }

  /** Every byte string survives encoding. */
  lemma RoundTrip(s: string)
    requires IsBytes(s)
    ensures Decode(Encode(s)) == Some(s)
  {
    EncodedIsLetters(s);
    LettersHaveNoNewlines(Encode(s));
  }

  lemma {:induction false} DecodedIsBytes(letters: string)
    ensures IsBytes(DecodeLetters(letters))
  {
    if |letters| > 8 {
      DecodedIsBytes(letters[8..]);
    }
  }
}
