/** The two number formats inside a password hash: decimal numbers, and base64 without padding
    (sections 4 and 3.2 of RFC 4648). */
module PasswordCodec {
  import opened Wrappers

  type byte = x: int | 0 <= x < 256

  const UINT32_LIMIT: nat := 0x1_0000_0000

  // ---- decimal ----

  predicate IsDigit(c: char) {
    '0' <= c <= '9'
  }

  function DigitChar(d: nat): (c: char)
    requires d < 10
    ensures IsDigit(c)
  {
    ('0' as int + d) as char
  }

  function Decimal(n: nat): string {
    if n < 10 then [DigitChar(n)] else Decimal(n / 10) + [DigitChar(n % 10)]
  }

  predicate AllDigits(s: string) {
    forall i :: 0 <= i < |s| ==> IsDigit(s[i])
  }

  function DecimalValue(s: string): nat
    requires AllDigits(s)
  {
    if s == "" then 0 else DecimalValue(s[..|s| - 1]) * 10 + (s[|s| - 1] as int - '0' as int)
  }

  /** ParseUint with base 10 and 32 bits: no sign, no underscore, no other character. */
  function ParseUint32(s: string): Option<nat> {
    if s != "" && AllDigits(s) && DecimalValue(s) < UINT32_LIMIT then Some(DecimalValue(s)) else None
  }

  lemma {:induction false} DecimalRoundTrip(n: nat)
    ensures Decimal(n) != "" && AllDigits(Decimal(n)) && DecimalValue(Decimal(n)) == n
  {
    if n < 10 {
      assert Decimal(n)[..0] == "";
    } else {
      DecimalRoundTrip(n / 10);
      assert Decimal(n)[..|Decimal(n)| - 1] == Decimal(n / 10);
    }
  }

  // ---- base64 ----

  type sextet = x: int | 0 <= x < 64

  function Letter(v: sextet): char {
    if v < 26 then ('A' as int + v) as char
    else if v < 52 then ('a' as int + v - 26) as char
    else if v < 62 then ('0' as int + v - 52) as char
    else if v == 62 then '+' else '/'
  }

  function LetterValue(c: char): Option<sextet> {
    if 'A' <= c <= 'Z' then Some(c as int - 'A' as int)
    else if 'a' <= c <= 'z' then Some(c as int - 'a' as int + 26)
    else if '0' <= c <= '9' then Some(c as int - '0' as int + 52)
    else if c == '+' then Some(62) else if c == '/' then Some(63) else None
  }

  /** The four sextets of three bytes; a missing byte reads as zero. */
  function Sextet1(a: byte): sextet {
    var x: int := a; x / 4
  }

  function Sextet2(a: byte, b: byte): sextet {
    var x: int, y: int := a, b; x % 4 * 16 + y / 16
  }

  function Sextet3(b: byte, c: byte): sextet {
    var x: int, y: int := b, c; x % 16 * 4 + y / 64
  }

  function Sextet4(c: byte): sextet {
    var x: int := c; x % 64
  }

  /** The three bytes of four sextets. */
  function Byte1(p: sextet, q: sextet): byte {
    var x: int, y: int := p, q; x * 4 + y / 16
  }

  function Byte2(q: sextet, r: sextet): byte {
    var x: int, y: int := q, r; x % 16 * 16 + y / 4
  }

  function Byte3(r: sextet, s: sextet): byte {
    var x: int, y: int := r, s; x % 4 * 64 + y
  }

  function Encode(data: seq<byte>): string {
    if data == [] then ""
    else if |data| == 1 then [Letter(Sextet1(data[0])), Letter(Sextet2(data[0], 0))]
    else if |data| == 2 then
      [Letter(Sextet1(data[0])), Letter(Sextet2(data[0], data[1])), Letter(Sextet3(data[1], 0))]
    else
      [Letter(Sextet1(data[0])), Letter(Sextet2(data[0], data[1])),
       Letter(Sextet3(data[1], data[2])), Letter(Sextet4(data[2]))] + Encode(data[3..])
  }

  /** The decoder skips line breaks wherever they stand. */
  function SkipLineBreaks(s: string): string {
    if s == "" then ""
    else if s[0] == '\r' || s[0] == '\n' then SkipLineBreaks(s[1..])
    else [s[0]] + SkipLineBreaks(s[1..])
  }

  function Values(s: string): Option<seq<sextet>> {
    if s == "" then Some([]) else
    match (LetterValue(s[0]), Values(s[1..]))
    case (Some(v), Some(vs)) => Some([v] + vs)
    case _ => None
  }

  /** A lone last letter is an error; the unused low bits of a short last group are not checked. */
  function Bytes(vs: seq<sextet>): Option<seq<byte>> {
    if vs == [] then Some([])
    else if |vs| == 1 then None
    else if |vs| == 2 then Some([Byte1(vs[0], vs[1])])
    else if |vs| == 3 then Some([Byte1(vs[0], vs[1]), Byte2(vs[1], vs[2])])
    else match Bytes(vs[4..])
      case None => None
      case Some(rest) => Some([Byte1(vs[0], vs[1]), Byte2(vs[1], vs[2]), Byte3(vs[2], vs[3])] + rest)
  }

  function Decode(s: string): Option<seq<byte>> {
    match Values(SkipLineBreaks(s))
    case None => None
    case Some(vs) => Bytes(vs)
  }

  predicate IsLetter(c: char) {
    LetterValue(c).Some?
  }

  lemma LetterRoundTrip(v: sextet)
    ensures LetterValue(Letter(v)) == Some(v)
  {
  }

  lemma GroupRoundTrip(a: byte, b: byte, c: byte)
    ensures Byte1(Sextet1(a), Sextet2(a, b)) == a
    ensures Byte2(Sextet2(a, b), Sextet3(b, c)) == b
    ensures Byte3(Sextet3(b, c), Sextet4(c)) == c
  {
  }

  /** The sextets Encode writes. */
  function Sextets(data: seq<byte>): seq<sextet> {
    if data == [] then []
    else if |data| == 1 then [Sextet1(data[0]), Sextet2(data[0], 0)]
    else if |data| == 2 then [Sextet1(data[0]), Sextet2(data[0], data[1]), Sextet3(data[1], 0)]
    else
      [Sextet1(data[0]), Sextet2(data[0], data[1]), Sextet3(data[1], data[2]), Sextet4(data[2])] + Sextets(data[3..])
  }

  lemma {:induction false} EncodeIsLetters(data: seq<byte>)
    ensures |Encode(data)| == |Sextets(data)|
    ensures forall i :: 0 <= i < |Sextets(data)| ==> Encode(data)[i] == Letter(Sextets(data)[i])
  {
    if |data| >= 3 {
      EncodeIsLetters(data[3..]);
    }
  }

  predicate Spells(s: string, vs: seq<sextet>) {
    |s| == |vs| && forall i :: 0 <= i < |vs| ==> s[i] == Letter(vs[i])
  }

  lemma {:induction false} LettersAreKept(s: string, vs: seq<sextet>)
    requires Spells(s, vs)
    ensures SkipLineBreaks(s) == s
  {
    if vs != [] {
      LettersAreKept(s[1..], vs[1..]);
      assert s == [s[0]] + s[1..];
    }
  }

  lemma {:induction false} ValuesOfLetters(s: string, vs: seq<sextet>)
    requires Spells(s, vs)
    ensures Values(s) == Some(vs)
  {
    if vs != [] {
      ValuesOfLetters(s[1..], vs[1..]);
      LetterRoundTrip(vs[0]);
      assert vs == [vs[0]] + vs[1..];
    }
  }

  lemma {:induction false} BytesOfSextets(data: seq<byte>)
    ensures Bytes(Sextets(data)) == Some(data)
  {
    if |data| >= 3 {
      BytesOfSextets(data[3..]);
      GroupRoundTrip(data[0], data[1], data[2]);
      assert Sextets(data)[4..] == Sextets(data[3..]);
      assert data == [data[0], data[1], data[2]] + data[3..];
    } else if |data| == 2 {
      GroupRoundTrip(data[0], data[1], 0);
      assert data == [data[0], data[1]];
    } else if |data| == 1 {
      GroupRoundTrip(data[0], 0, 0);
      assert data == [data[0]];
    }
  }

  lemma Base64RoundTrip(data: seq<byte>)
    ensures Decode(Encode(data)) == Some(data)
    ensures forall i :: 0 <= i < |Encode(data)| ==> IsLetter(Encode(data)[i])
  {
    EncodeIsLetters(data);
    LettersAreKept(Encode(data), Sextets(data));
    ValuesOfLetters(Encode(data), Sextets(data));
    forall i | 0 <= i < |Encode(data)| ensures IsLetter(Encode(data)[i]) {
      LetterRoundTrip(Sextets(data)[i]);
    }
    BytesOfSextets(data);
  }

  // ---- what is refused ----

  /** Digits alone, and less than two to the 32nd. */
  lemma ParseUint32Exactly(s: string, v: nat)
    ensures ParseUint32(s) == Some(v) <==>
              && s != "" && (forall i :: 0 <= i < |s| ==> '0' <= s[i] <= '9')
              && DecimalValue(s) == v && v < 4_294_967_296
  {
  }

  lemma {:induction false} SkipAppend(a: string, b: string)
    ensures SkipLineBreaks(a + b) == SkipLineBreaks(a) + SkipLineBreaks(b)
  {
    if a == "" {
      assert a + b == b;
    } else {
      SkipAppend(a[1..], b);
      assert (a + b)[1..] == a[1..] + b && (a + b)[0] == a[0];
    }
  }

  /** A line break anywhere makes no difference. */
  lemma LineBreaksAreSkipped(a: string, c: char, b: string)
    requires c == '\r' || c == '\n'
    ensures Decode(a + [c] + b) == Decode(a + b)
  {
    SkipAppend(a + [c], b);
    SkipAppend(a, [c]);
    SkipAppend(a, b);
    assert SkipLineBreaks([c]) == SkipLineBreaks([c][1..]) == "";
    assert SkipLineBreaks(a) + "" == SkipLineBreaks(a);
  }

  lemma {:induction false} ValuesExactly(s: string)
    ensures Values(s).Some? <==> forall i :: 0 <= i < |s| ==> IsLetter(s[i])
    ensures Values(s).Some? ==> |Values(s).value| == |s|
  {
    if s != "" {
      ValuesExactly(s[1..]);
      assert forall i :: 0 < i < |s| ==> s[i] == s[1..][i - 1];
    }
  }

  lemma {:induction false} BytesExactly(vs: seq<sextet>)
    ensures Bytes(vs).Some? <==> |vs| % 4 != 1
  {
    if |vs| >= 4 {
      BytesExactly(vs[4..]);
      FourLess(|vs|);
      BytesOfFour(vs);
    }
  }

  lemma FourLess(n: nat)
    requires n >= 4
    ensures (n - 4) % 4 == n % 4
  {
  }

  lemma BytesOfFour(vs: seq<sextet>)
    requires |vs| >= 4
    ensures Bytes(vs).Some? <==> Bytes(vs[4..]).Some?
  {
  }

  /** Text is decoded exactly when, but for line breaks, it is letters of the alphabet, and not one of them
      is left over from groups of four. */
  lemma DecodesExactly(s: string)
    ensures var text := SkipLineBreaks(s);
            Decode(s).Some? <==> (forall i :: 0 <= i < |text| ==> IsLetter(text[i])) && |text| % 4 != 1
  {
    ValuesExactly(SkipLineBreaks(s));
    if Values(SkipLineBreaks(s)).Some? {
      BytesExactly(Values(SkipLineBreaks(s)).value);
    }
  }

  /** The alphabet. */
  lemma LettersAre(c: char)
    ensures IsLetter(c) <==>
              'A' <= c <= 'Z' || 'a' <= c <= 'z' || '0' <= c <= '9' || c == '+' || c == '/'
  {
  }
}
