/** The encoded password hash: version, algorithm, cost parameters, salt and digest. */
module PasswordHash {
  import opened Wrappers
  import opened Text
  import opened PasswordCodec

  datatype Params = Params(memory: nat, time: nat, threads: nat, keyLen: nat, saltLen: nat)

  datatype ParsedHash = ParsedHash(params: Params, salt: seq<byte>, hash: seq<byte>)

  const DEFAULT := Params(64 * 1024, 2, 4, 32, 16)

  /** What the parser starts from: only the two lengths are fixed. */
  const UNSET := Params(0, 0, 0, DEFAULT.keyLen, DEFAULT.saltLen)

  const VERSION := "v1"
  const ALGORITHM := "argon2id"

  /** Argon2id, any function of password, salt, time, memory, threads and key length. */
  type Kdf = (seq<byte>, seq<byte>, nat, nat, nat, nat) -> seq<byte>

  // ---- printing ----

  function PrintParam(key: string, n: nat): string {
    key + "=" + Decimal(n)
  }

  function PrintParams(p: Params): string {
    Join([PrintParam("m", p.memory), PrintParam("t", p.time), PrintParam("p", p.threads)], ',')
  }

  function Print(p: Params, salt: seq<byte>, sum: seq<byte>): string {
    Join([VERSION, ALGORITHM, PrintParams(p), Encode(salt), Encode(sum)], '$')
  }

  function HashPassword(kdf: Kdf, password: seq<byte>, salt: seq<byte>): string {
    Print(DEFAULT, salt, kdf(password, salt, DEFAULT.time, DEFAULT.memory, DEFAULT.threads, DEFAULT.keyLen))
  }

  // ---- parsing ----

  /** One `key=value` part. */
  function ParsePart(part: string): Option<(string, nat)> {
    match Cut(part, '=')
    case None => None
    case Some((key, digits)) =>
      match ParseUint32(digits)
      case None => None
      case Some(v) => Some((key, v))
  }

  /** A value too wide for its field keeps its low bits: only `threads`, an 8-bit field, can lose any. */
  function SetParam(p: Params, key: string, v: nat): Option<Params> {
    if key == "m" then Some(p.(memory := v))
    else if key == "t" then Some(p.(time := v))
    else if key == "p" then Some(p.(threads := v % 256))
    else None
  }

  function SetPart(p: Params, part: string): Option<Params> {
    match ParsePart(part)
    case None => None
    case Some((key, v)) => SetParam(p, key, v)
  }

  function SetParts(p: Params, parts: seq<string>): Option<Params>
    decreases |parts|
  {
    if parts == [] then Some(p) else
    match SetPart(p, parts[0])
    case None => None
    case Some(p') => SetParts(p', parts[1..])
  }

  function ParseParams(raw: string): Option<Params> {
    if |Split(raw, ',')| != 3 then None else
    match SetParts(UNSET, Split(raw, ','))
    case None => None
    case Some(p) => if p.memory == 0 || p.time == 0 || p.threads == 0 then None else Some(p)
  }

  /** The parser's loop over the parts. */
  method ParsePasswordHashParams(raw: string) returns (r: Option<Params>)
    ensures r == ParseParams(raw)
  {
    var parts := Split(raw, ',');
    if |parts| != 3 {
      return None;
    }
    var params := UNSET;
    for i := 0 to |parts|
      invariant SetParts(UNSET, parts) == SetParts(params, parts[i..])
    {
      assert parts[i..][1..] == parts[i + 1..];
      var kv := Cut(parts[i], '=');
      if kv.None? {
        return None;
      }
      var v := ParseUint32(kv.value.1);
      if v.None? {
        return None;
      }
      match kv.value.0 {
        case "m" => params := params.(memory := v.value);
        case "t" => params := params.(time := v.value);
        case "p" => params := params.(threads := v.value % 256);
        case _ => return None;
      }
    }
    if params.memory == 0 || params.time == 0 || params.threads == 0 {
      return None;
    }
    return Some(params);
  }

  function ParsePasswordHash(encoded: string): Option<ParsedHash> {
    var parts := Split(encoded, '$');
    if |parts| != 5 || parts[0] != VERSION || parts[1] != ALGORITHM then None else
    match (ParseParams(parts[2]), Decode(parts[3]), Decode(parts[4]))
    case (Some(p), Some(salt), Some(hash)) =>
      if |salt| == p.saltLen && |hash| == p.keyLen then Some(ParsedHash(p, salt, hash)) else None
    case _ => None
  }

  predicate VerifyPassword(kdf: Kdf, password: seq<byte>, encoded: string) {
    match ParsePasswordHash(encoded)
    case None => false
    case Some(spec) =>
      kdf(password, spec.salt, spec.params.time, spec.params.memory, spec.params.threads, spec.params.keyLen)
      == spec.hash
  }

  // ---- what the parameter parser accepts ----

  /** The parts, in some order, name each of m, t and p once with a usable value. */
  ghost predicate Describes(parts: multiset<string>, p: Params) {
    exists a, b, c, m, t, n :: DescribesBy(parts, p, a, b, c, m, t, n)
  }

  predicate DescribesBy(parts: multiset<string>, p: Params, a: string, b: string, c: string, m: nat, t: nat, n: nat) {
    && parts == multiset{a, b, c}
    && ParsePart(a) == Some(("m", m)) && ParsePart(b) == Some(("t", t)) && ParsePart(c) == Some(("p", n))
    && m != 0 && t != 0 && n % 256 != 0
    && p == Params(m, t, n % 256, DEFAULT.keyLen, DEFAULT.saltLen)
  }

  lemma SetThreeParts(p: Params, x: string, y: string, z: string)
    ensures SetParts(p, [x, y, z]) ==
      match SetPart(p, x)
      case None => None
      case Some(p1) => match SetPart(p1, y)
        case None => None
        case Some(p2) => SetPart(p2, z)
  {
    assert [x, y, z][1..] == [y, z];
    assert [y, z][1..] == [z];
    match SetPart(p, x) {
      case None =>
      case Some(p1) =>
        match SetPart(p1, y) {
          case None =>
          case Some(p2) => assert SetParts(p2, [z]) == SetPart(p2, z);
        }
    }
  }

  lemma PartsDescribe(x: string, y: string, z: string, p: Params)
    requires SetParts(UNSET, [x, y, z]) == Some(p) && p.memory != 0 && p.time != 0 && p.threads != 0
    ensures Describes(multiset{x, y, z}, p)
  {
    SetThreeParts(UNSET, x, y, z);
    var (kx, vx) := ParsePart(x).value;
    var (ky, vy) := ParsePart(y).value;
    var (kz, vz) := ParsePart(z).value;
    var parts := multiset{x, y, z};
    if kx == "m" && ky == "t" {
      assert DescribesBy(parts, p, x, y, z, vx, vy, vz);
    } else if kx == "m" {
      assert DescribesBy(parts, p, x, z, y, vx, vz, vy);
    } else if kx == "t" && ky == "m" {
      assert DescribesBy(parts, p, y, x, z, vy, vx, vz);
    } else if kx == "t" {
      assert DescribesBy(parts, p, z, x, y, vz, vx, vy);
    } else if ky == "m" {
      assert DescribesBy(parts, p, y, z, x, vy, vz, vx);
    } else {
      assert DescribesBy(parts, p, z, y, x, vz, vy, vx);
    }
  }

  lemma DescribedIsSet(x: string, y: string, z: string, a: string, b: string, c: string, m: nat, t: nat, n: nat)
    requires multiset{x, y, z} == multiset{a, b, c}
    requires ParsePart(a) == Some(("m", m)) && ParsePart(b) == Some(("t", t)) && ParsePart(c) == Some(("p", n))
    ensures SetParts(UNSET, [x, y, z]) == Some(Params(m, t, n % 256, DEFAULT.keyLen, DEFAULT.saltLen))
  {
    SetThreeParts(UNSET, x, y, z);
    assert a != b && b != c && a != c;
    assert x in multiset{a, b, c} && y in multiset{a, b, c} && z in multiset{a, b, c};
    assert multiset{a, b, c}[a] == multiset{a, b, c}[b] == multiset{a, b, c}[c] == 1;
    assert multiset{x, y, z}[x] == 1 && multiset{x, y, z}[y] == 1 && multiset{x, y, z}[z] == 1;
  }

  lemma AcceptedDescribes(raw: string, p: Params)
    requires ParseParams(raw) == Some(p)
    ensures |Split(raw, ',')| == 3 && Describes(multiset(Split(raw, ',')), p)
  {
    var parts := Split(raw, ',');
    assert parts == [parts[0], parts[1], parts[2]];
    PartsDescribe(parts[0], parts[1], parts[2], p);
    assert multiset(parts) == multiset{parts[0], parts[1], parts[2]};
  }

  lemma DescribedSets(x: string, y: string, z: string, p: Params)
    requires Describes(multiset{x, y, z}, p)
    ensures SetParts(UNSET, [x, y, z]) == Some(p) && p.memory != 0 && p.time != 0 && p.threads != 0
  {
    var a, b, c, m, t, n :| DescribesBy(multiset{x, y, z}, p, a, b, c, m, t, n);
    DescribedIsSet(x, y, z, a, b, c, m, t, n);
  }

  lemma DescribedIsAccepted(raw: string, p: Params)
    requires |Split(raw, ',')| == 3 && Describes(multiset(Split(raw, ',')), p)
    ensures ParseParams(raw) == Some(p)
  {
    var parts := Split(raw, ',');
    var x, y, z := parts[0], parts[1], parts[2];
    assert parts == [x, y, z];
    assert multiset(parts) == multiset{x, y, z};
    DescribedSets(x, y, z, p);
  }

  /** Acceptance and result exactly: three parts that describe the parameters. */
  lemma AcceptsExactly(raw: string, p: Params)
    ensures ParseParams(raw) == Some(p) <==> |Split(raw, ',')| == 3 && Describes(multiset(Split(raw, ',')), p)
  {
    if ParseParams(raw) == Some(p) {
      AcceptedDescribes(raw, p);
    } else if |Split(raw, ',')| == 3 && Describes(multiset(Split(raw, ',')), p) {
      DescribedIsAccepted(raw, p);
    }
  }

  /** The order of the parts does not matter, for acceptance or for the result. */
  lemma OrderDoesNotMatter(raw: string, raw': string)
    requires multiset(Split(raw, ',')) == multiset(Split(raw', ','))
    ensures ParseParams(raw) == ParseParams(raw')
  {
    assert |Split(raw, ',')| == |multiset(Split(raw, ','))| == |multiset(Split(raw', ','))| == |Split(raw', ',')|;
    if ParseParams(raw).Some? {
      AcceptsExactly(raw, ParseParams(raw).value);
      AcceptsExactly(raw', ParseParams(raw).value);
    } else if ParseParams(raw').Some? {
      AcceptsExactly(raw, ParseParams(raw').value);
      AcceptsExactly(raw', ParseParams(raw').value);
    }
  }

  // ---- round trip ----

  /** The costs the printed format can carry. */
  predicate Printable(p: Params) {
    && 0 < p.memory < UINT32_LIMIT && 0 < p.time < UINT32_LIMIT && 0 < p.threads < 256
    && p.keyLen == DEFAULT.keyLen && p.saltLen == DEFAULT.saltLen
  }

  lemma DigitsAreFree(n: nat, sep: char)
    requires !IsDigit(sep)
    ensures Free(Decimal(n), sep)
  {
    DecimalRoundTrip(n);
  }

  lemma PartRoundTrip(key: string, n: nat)
    requires Free(key, '=') && n < UINT32_LIMIT
    ensures ParsePart(PrintParam(key, n)) == Some((key, n))
  {
    DecimalRoundTrip(n);
    CutPrefix(key, Decimal(n), '=');
  }

  lemma JoinOfThree(x: string, y: string, z: string, sep: char)
    ensures Join([x, y, z], sep) == x + [sep] + (y + [sep] + z)
  {
    assert [x, y, z][1..] == [y, z];
    assert [y, z][1..] == [z];
    assert Join([y, z], sep) == y + [sep] + Join([z], sep);
  }

  lemma OrderedParts(x: string, y: string, z: string, m: nat, t: nat, n: nat)
    requires Free(x, ',') && Free(y, ',') && Free(z, ',')
    requires ParsePart(x) == Some(("m", m)) && ParsePart(y) == Some(("t", t)) && ParsePart(z) == Some(("p", n))
    requires m != 0 && t != 0 && 0 < n < 256
    ensures ParseParams(Join([x, y, z], ',')) == Some(Params(m, t, n, DEFAULT.keyLen, DEFAULT.saltLen))
  {
    SplitJoin([x, y, z], ',');
    SetThreeParts(UNSET, x, y, z);
  }

  lemma PrintedParam(key: string, n: nat)
    requires key in {"m", "t", "p"} && n < UINT32_LIMIT
    ensures Free(PrintParam(key, n), ',') && Free(PrintParam(key, n), '$')
    ensures ParsePart(PrintParam(key, n)) == Some((key, n))
  {
    DigitsAreFree(n, ',');
    DigitsAreFree(n, '$');
    PartRoundTrip(key, n);
  }

  lemma ParamsRoundTrip(p: Params)
    requires Printable(p)
    ensures ParseParams(PrintParams(p)) == Some(p) && Free(PrintParams(p), '$')
  {
    PrintedParam("m", p.memory);
    PrintedParam("t", p.time);
    PrintedParam("p", p.threads);
    var m, t, n := PrintParam("m", p.memory), PrintParam("t", p.time), PrintParam("p", p.threads);
    OrderedParts(m, t, n, p.memory, p.time, p.threads);
    JoinOfThree(m, t, n, ',');
  }

  lemma EncodingIsFree(data: seq<byte>)
    ensures Free(Encode(data), '$')
  {
    Base64RoundTrip(data);
  }

  /** Parsing a printed hash gives back exactly what was printed. */
  lemma PrintParseRoundTrip(p: Params, salt: seq<byte>, sum: seq<byte>)
    requires Printable(p) && |salt| == p.saltLen && |sum| == p.keyLen
    ensures ParsePasswordHash(Print(p, salt, sum)) == Some(ParsedHash(p, salt, sum))
  {
    ParamsRoundTrip(p);
    EncodingIsFree(salt);
    EncodingIsFree(sum);
    SplitJoin([VERSION, ALGORITHM, PrintParams(p), Encode(salt), Encode(sum)], '$');
    Base64RoundTrip(salt);
    Base64RoundTrip(sum);
  }

  /** A password verifies against a hash exactly when the key function cannot tell it from the one
      hashed; so the password itself always verifies. */
  lemma VerifiesItsHash(kdf: Kdf, password: seq<byte>, other: seq<byte>, salt: seq<byte>)
    requires |salt| == DEFAULT.saltLen
    requires |kdf(password, salt, DEFAULT.time, DEFAULT.memory, DEFAULT.threads, DEFAULT.keyLen)| == DEFAULT.keyLen
    ensures VerifyPassword(kdf, password, HashPassword(kdf, password, salt))
    ensures VerifyPassword(kdf, other, HashPassword(kdf, password, salt)) <==>
              kdf(other, salt, DEFAULT.time, DEFAULT.memory, DEFAULT.threads, DEFAULT.keyLen)
              == kdf(password, salt, DEFAULT.time, DEFAULT.memory, DEFAULT.threads, DEFAULT.keyLen)
  {
    PrintParseRoundTrip(DEFAULT, salt,
      kdf(password, salt, DEFAULT.time, DEFAULT.memory, DEFAULT.threads, DEFAULT.keyLen));
  }

  // ---- the format ----

  lemma DecimalDigit(d: nat)
    requires d < 10
    ensures Decimal(d) == ["0123456789"[d]]
  {
  }

  lemma MemoryInDecimal()
    ensures Decimal(65536) == "65536"
  {
    DecimalDigit(6);
    assert Decimal(65) == Decimal(6) + ['5'] == "65";
    assert Decimal(655) == Decimal(65) + ['5'] == "655";
    assert Decimal(6553) == Decimal(655) + ['3'] == "6553";
  }

  lemma JoinOfFive(a: string, b: string, c: string, d: string, e: string, sep: char)
    ensures Join([a, b, c, d, e], sep) == a + [sep] + b + [sep] + c + [sep] + d + [sep] + e
  {
    JoinOfThree(c, d, e, sep);
    assert [a, b, c, d, e][1..] == [b, c, d, e] && [b, c, d, e][1..] == [c, d, e];
    assert Join([b, c, d, e], sep) == b + [sep] + Join([c, d, e], sep);
  }

  lemma DefaultParamsAre()
    ensures PrintParams(DEFAULT) == "m=65536,t=2,p=4"
  {
    MemoryInDecimal();
    DecimalDigit(2);
    DecimalDigit(4);
    JoinOfThree("m=65536", "t=2", "p=4", ',');
    assert PrintParam("m", 65536) == "m" + "=" + "65536" == "m=65536";
    assert PrintParam("t", 2) == "t" + "=" + "2" == "t=2" && PrintParam("p", 4) == "p" + "=" + "4" == "p=4";
  }

  /** What a hashed password looks like: 64 MiB, two passes, four lanes, a digest of 32 bytes. */
  lemma HashLooksSo(kdf: Kdf, password: seq<byte>, salt: seq<byte>)
    ensures HashPassword(kdf, password, salt) ==
              "v1" + ['$'] + "argon2id" + ['$'] + "m=65536,t=2,p=4" + ['$'] + Encode(salt) + ['$']
              + Encode(kdf(password, salt, 2, 65536, 4, 32))
  {
    DefaultParamsAre();
    JoinOfFive("v1", "argon2id", "m=65536,t=2,p=4", Encode(salt), Encode(kdf(password, salt, 2, 65536, 4, 32)), '$');
  }

  /** A string parses exactly when it is five parts: the version, the algorithm, parameters, and base64 of
      a salt of 16 bytes and of a digest of 32. */
  lemma HashParsesExactly(encoded: string, p: Params, salt: seq<byte>, sum: seq<byte>)
    ensures ParsePasswordHash(encoded) == Some(ParsedHash(p, salt, sum)) <==>
              var parts := Split(encoded, '$');
              && |parts| == 5 && parts[0] == "v1" && parts[1] == "argon2id"
              && ParseParams(parts[2]) == Some(p)
              && Decode(parts[3]) == Some(salt) && |salt| == 16
              && Decode(parts[4]) == Some(sum) && |sum| == 32
  {
    var parts := Split(encoded, '$');
    if |parts| == 5 && ParseParams(parts[2]).Some? {
      AcceptsExactly(parts[2], ParseParams(parts[2]).value);
    }
  }

  /** No password verifies against what does not parse, and against what does exactly those the key
      function takes to the digest. */
  lemma VerifiesExactly(kdf: Kdf, password: seq<byte>, encoded: string)
    ensures VerifyPassword(kdf, password, encoded) <==>
              exists p: Params, salt: seq<byte> ::
                ParsePasswordHash(encoded) ==
                  Some(ParsedHash(p, salt, kdf(password, salt, p.time, p.memory, p.threads, 32)))
  {
    var parsed := ParsePasswordHash(encoded);
    if parsed.Some? {
      HashParsesExactly(encoded, parsed.value.params, parsed.value.salt, parsed.value.hash);
      AcceptsExactly(Split(encoded, '$')[2], parsed.value.params);
      if VerifyPassword(kdf, password, encoded) {
        var p, salt := parsed.value.params, parsed.value.salt;
        assert parsed == Some(ParsedHash(p, salt, kdf(password, salt, p.time, p.memory, p.threads, 32)));
      }
    }
  }
}
