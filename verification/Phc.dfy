/** Argon2id verifiers in PHC text (inputs as in section 3.1 of RFC 9106): printer, parser, verification. */
module Phc {
  import opened Basics
  import Text
  import Decimal
  import opened Base64

  datatype Parameters = Parameters(memory: nat, iterations: nat, parallelism: nat, saltLength: nat, keyLength: nat)

  const DEFAULTS := Parameters(64 * 1024, 3, 4, 16, 32)

  predicate ValidParameters(p: Parameters) {
    && 19 * 1024 <= p.memory <= 128 * 1024
    && 1 <= p.iterations <= 5
    && 1 <= p.parallelism <= 8
    && 16 <= p.saltLength <= 64
    && 16 <= p.keyLength <= 64
  }

  datatype Parsed = Parsed(parameters: Parameters, salt: seq<Byte>, digest: seq<Byte>)

  /** What a parsed verifier always is: in bounds, with lengths taken from its own fields. */
  predicate Proper(v: Parsed) {
    ValidParameters(v.parameters) && v.parameters.saltLength == |v.salt| && v.parameters.keyLength == |v.digest|
  }

  function ParameterText(p: Parameters): string {
    "m=" + Decimal.Print(p.memory) + ",t=" + Decimal.Print(p.iterations) + ",p=" + Decimal.Print(p.parallelism)
  }

  function Print(v: Parsed): string {
    "$argon2id$v=19$" + ParameterText(v.parameters) + "$" + Encode(v.salt) + "$" + Encode(v.digest)
  }

  /** Reads `<name>=<number>`. */
  function ParseField(field: string, name: char, limit: nat): Option<nat> {
    if |field| < 2 || field[0] != name || field[1] != '=' then None else Decimal.ParseUint(field[2..], limit)
  }

  /** Reads `m=<number>,t=<number>,p=<number>`. */
  function ParseNumbers(text: string): Option<(nat, nat, nat)> {
    var fields := Text.Split(text, ',');
    if |fields| != 3 then None else
    var memory := ParseField(fields[0], 'm', 0x1_0000_0000);
    var iterations := ParseField(fields[1], 't', 0x1_0000_0000);
    var parallelism := ParseField(fields[2], 'p', 0x100);
    if memory.None? || iterations.None? || parallelism.None? then None
    else Some((memory.value, iterations.value, parallelism.value))
  }

  function ParseParts(parts: seq<string>): (r: Option<Parsed>)
    ensures r.Some? ==> Proper(r.value)
  {
    if |parts| != 6 || parts[0] != "" || parts[1] != "argon2id" || parts[2] != "v=19" then None else
    var numbers := ParseNumbers(parts[3]);
    var salt := Decode(parts[4]);
    var digest := Decode(parts[5]);
    if numbers.None? || salt.None? || digest.None? then None else
    var parameters :=
      Parameters(numbers.value.0, numbers.value.1, numbers.value.2, |salt.value|, |digest.value|);
    if !ValidParameters(parameters) then None else Some(Parsed(parameters, salt.value, digest.value))
  }

  function Parse(encoded: string): (r: Option<Parsed>)
    ensures r.Some? ==> Proper(r.value)
  {
    ParseParts(Text.Split(encoded, '$'))
  }

  // ---------- Printing, then parsing ----------

  function Fields(p: Parameters): seq<string> {
    ["m=" + Decimal.Print(p.memory), "t=" + Decimal.Print(p.iterations), "p=" + Decimal.Print(p.parallelism)]
  }

  function Parts(v: Parsed): seq<string> {
    ["", "argon2id", "v=19", ParameterText(v.parameters), Encode(v.salt), Encode(v.digest)]
  }

  lemma JoinThree(a: string, b: string, d: string, c: char)
    ensures Text.Join([a, b, d], c) == a + [c] + b + [c] + d
  {
    assert [a, b, d][1..] == [b, d] && [b, d][1..] == [d];
    assert Text.Join([b, d], c) == b + [c] + d;
    assert a + [c] + (b + [c] + d) == a + [c] + b + [c] + d;
  }

  lemma ParameterTextJoins(p: Parameters)
    ensures ParameterText(p) == Text.Join(Fields(p), ',')
  {
    var f := Fields(p);
    JoinThree(f[0], f[1], f[2], ',');
    assert ParameterText(p) == f[0] + "," + f[1] + "," + f[2];
  }

  lemma JoinCons(a: string, rest: seq<string>, c: char)
    requires |rest| >= 1
    ensures Text.Join([a] + rest, c) == a + [c] + Text.Join(rest, c)
  {
    assert ([a] + rest)[1..] == rest;
  }

  lemma HeaderText(tail: string)
    ensures "" + "$" + ("argon2id" + "$" + ("v=19" + "$" + tail)) == "$argon2id$v=19$" + tail
  {
    assert "" + "$" + ("argon2id" + "$" + ("v=19" + "$")) == "$argon2id$v=19$";
  }

  lemma PrintJoins(v: Parsed)
    ensures Print(v) == Text.Join(Parts(v), '$')
  {
    var a, b, d := ParameterText(v.parameters), Encode(v.salt), Encode(v.digest);
    var fields := [a, b, d];
    JoinThree(a, b, d, '$');
    JoinCons("v=19", fields, '$');
    JoinCons("argon2id", ["v=19"] + fields, '$');
    JoinCons("", ["argon2id"] + (["v=19"] + fields), '$');
    assert Parts(v) == [""] + (["argon2id"] + (["v=19"] + fields));
    HeaderText(a + "$" + b + "$" + d);
    assert Print(v) == "$argon2id$v=19$" + (a + "$" + b + "$" + d);
  }

  lemma FieldsSplit(p: Parameters)
    ensures Text.Split(ParameterText(p), ',') == Fields(p)
  {
    ParameterTextJoins(p);
    Text.SplitJoin(Fields(p), ',');
  }

  lemma PartsSplit(v: Parsed)
    ensures Text.Split(Print(v), '$') == Parts(v)
  {
    PrintJoins(v);
    Text.SplitJoin(Parts(v), '$');
  }

  lemma ParsePrintedField(name: char, n: nat, limit: nat)
    requires n < limit
    ensures ParseField([name, '='] + Decimal.Print(n), name, limit) == Some(n)
  {
    assert ([name, '='] + Decimal.Print(n))[2..] == Decimal.Print(n);
    Decimal.ParsePrinted(n, limit);
  }

  lemma ParsePrintedNumbers(p: Parameters)
    requires ValidParameters(p)
    ensures ParseNumbers(ParameterText(p)) == Some((p.memory, p.iterations, p.parallelism))
  {
    FieldsSplit(p);
    ParsePrintedField('m', p.memory, 0x1_0000_0000);
    ParsePrintedField('t', p.iterations, 0x1_0000_0000);
    ParsePrintedField('p', p.parallelism, 0x100);
  }

  /** Parsing a printed verifier gives back exactly its parameters, salt and digest. */
  lemma ParsePrinted(v: Parsed)
    requires Proper(v)
    ensures Parse(Print(v)) == Some(v)
  {
    PartsSplit(v);
    ParsePrintedNumbers(v.parameters);
    DecodeOfEncode(v.salt);
    DecodeOfEncode(v.digest);
  }

  // ---------- Parsing, then printing ----------

  lemma PrintParsedField(field: string, name: char, limit: nat)
    requires ParseField(field, name, limit).Some?
    ensures [name, '='] + Decimal.Print(ParseField(field, name, limit).value) == field
  {
    Decimal.PrintParsed(field[2..], limit);
  }

  lemma ReprintNumbers(text: string, p: Parameters)
    requires ParseNumbers(text) == Some((p.memory, p.iterations, p.parallelism))
    ensures ParameterText(p) == text
  {
    var fields := Text.Split(text, ',');
    PrintParsedField(fields[0], 'm', 0x1_0000_0000);
    PrintParsedField(fields[1], 't', 0x1_0000_0000);
    PrintParsedField(fields[2], 'p', 0x100);
    assert Fields(p) == fields;
    ParameterTextJoins(p);
    Text.JoinSplit(text, ',');
  }

  /** Reprinting a parsed verifier gives its text, less any line breaks inside the base64 fields. */
  lemma ReprintParts(encoded: string)
    requires Parse(encoded).Some?
    ensures |Text.Split(encoded, '$')| == 6
    ensures var parts := Text.Split(encoded, '$');
            Parts(Parse(encoded).value) == parts[4 := DropNewlines(parts[4])][5 := DropNewlines(parts[5])]
  {
    var v := Parse(encoded).value;
    var parts := Text.Split(encoded, '$');
    ReprintNumbers(parts[3], v.parameters);
    EncodeOfDecode(parts[4]);
    EncodeOfDecode(parts[5]);
  }

  /** A parsed text is reprinted unchanged exactly when its base64 fields hold no line break. */
  lemma ReprintParsed(encoded: string)
    requires Parse(encoded).Some?
    ensures |Text.Split(encoded, '$')| == 6
    ensures var parts := Text.Split(encoded, '$');
            Print(Parse(encoded).value) == encoded <==> OneLine(parts[4]) && OneLine(parts[5])
  {
    var v := Parse(encoded).value;
    var parts := Text.Split(encoded, '$');
    ReprintParts(encoded);
    PrintJoins(v);
    Text.JoinSplit(encoded, '$');
    if OneLine(parts[4]) && OneLine(parts[5]) {
      DropNothing(parts[4]);
      DropNothing(parts[5]);
      assert Parts(v) == parts;
    }
    if Print(v) == encoded {
      PartsSplit(v);
      assert parts[4] == DropNewlines(parts[4]) && parts[5] == DropNewlines(parts[5]);
      DroppedIsOneLine(parts[4]);
      DroppedIsOneLine(parts[5]);
    }
  }

  /** So two one-line spellings of one verifier are the same text. */
  lemma OneSpelling(a: string, b: string)
    requires Parse(a).Some? && Parse(a) == Parse(b)
    requires var p := Text.Split(a, '$'); |p| == 6 ==> OneLine(p[4]) && OneLine(p[5])
    requires var q := Text.Split(b, '$'); |q| == 6 ==> OneLine(q[4]) && OneLine(q[5])
    ensures a == b
  {
    ReprintParsed(a);
    ReprintParsed(b);
  }

  /** The guard matters: a line break inside the salt field parses and is lost in reprinting. */
  lemma LineBreakIsLost(v: Parsed)
    requires Proper(v)
    ensures var parts := Parts(v);
            var broken := Text.Join(parts[4 := "\n" + parts[4]], '$');
            Parse(broken) == Some(v) && broken != Print(v)
  {
    var parts := Parts(v);
    var other := parts[4 := "\n" + parts[4]];
    Text.SplitJoin(other, '$');
    ParsePrinted(v);
    PartsSplit(v);
    assert other[4][1..] == parts[4];
    DropNothing(parts[4]);
    assert DropNewlines(other[4]) == parts[4] by {
      assert DropNewlines(other[4]) == "" + DropNewlines(parts[4]);
    }
    assert other[4] != parts[4] by { assert |other[4]| != |parts[4]|; }
  }

  lemma {:induction false} DropKeepsClean(s: string, c: char)
    requires c !in s
    ensures c !in DropNewlines(s)
  {
    if s != "" {
      DropKeepsClean(s[1..], c);
    }
  }

  lemma DropEncoded(b: seq<Byte>)
    ensures DropNewlines(Encode(b)) == Encode(b)
  {
    DropNothing(Encode(b));
  }

  /** Fields four and five decode as their one-line spellings do. */
  lemma DecodeIgnoresNewlines(s: string, b: seq<Byte>)
    requires DropNewlines(s) == Encode(b)
    ensures Decode(s) == Some(b)
  {
    DropEncoded(b);
    DecodeOfEncode(b);
  }

  /** The text without the line breaks in its two base64 fields. */
  function Cleaned(parts: seq<string>): seq<string>
    requires |parts| == 6
  {
    parts[4 := DropNewlines(parts[4])][5 := DropNewlines(parts[5])]
  }

  lemma CleanedSplits(encoded: string)
    requires |Text.Split(encoded, '$')| == 6
    ensures var clean := Cleaned(Text.Split(encoded, '$')); Text.Split(Text.Join(clean, '$'), '$') == clean
  {
    var parts := Text.Split(encoded, '$');
    var clean := Cleaned(parts);
    forall i | 0 <= i < 6 ensures '$' !in clean[i] {
      Text.PartsAreClean(encoded, '$', i);
      DropKeepsClean(parts[i], '$');
    }
    Text.SplitJoin(clean, '$');
  }

  lemma ParseCleaned(parts: seq<string>, v: Parsed)
    requires Proper(v) && |parts| == 6 && Cleaned(parts) == Parts(v)
    ensures ParseParts(parts) == Some(v)
  {
    var clean := Cleaned(parts);
    assert parts[0] == clean[0] && parts[1] == clean[1] && parts[2] == clean[2] && parts[3] == clean[3];
    assert DropNewlines(parts[4]) == clean[4] && DropNewlines(parts[5]) == clean[5];
    ParsePrintedNumbers(v.parameters);
    DecodeIgnoresNewlines(parts[4], v.salt);
    DecodeIgnoresNewlines(parts[5], v.digest);
  }

  /** Exactly which texts parse, and as what: those that are printed verifiers once cleaned of line breaks. */
  lemma ParseExactly(encoded: string, v: Parsed)
    ensures Parse(encoded) == Some(v) <==>
              && Proper(v) && |Text.Split(encoded, '$')| == 6
              && Text.Join(Cleaned(Text.Split(encoded, '$')), '$') == Print(v)
  {
    var parts := Text.Split(encoded, '$');
    if Parse(encoded) == Some(v) {
      ReprintParts(encoded);
      PrintJoins(v);
    } else if Proper(v) && |parts| == 6 && Text.Join(Cleaned(parts), '$') == Print(v) {
      CleanedSplits(encoded);
      PartsSplit(v);
      ParseCleaned(parts, v);
    }
  }

  lemma DefaultNumbers()
    ensures ParameterText(DEFAULTS) == "m=65536,t=3,p=4"
  {
    assert Decimal.Print(65536) == "65536" && Decimal.Print(3) == "3" && Decimal.Print(4) == "4";
  }

  /** A verifier with the current parameters, letter by letter up to its salt. */
  lemma DefaultText(salt: seq<Byte>, digest: seq<Byte>)
    ensures Print(Parsed(DEFAULTS, salt, digest)) ==
              "$argon2id$v=19$m=65536,t=3,p=4$" + Encode(salt) + "$" + Encode(digest)
    ensures DEFAULTS.saltLength == 16 && DEFAULTS.keyLength == 32
  {
    DefaultNumbers();
    assert "$argon2id$v=19$" + "m=65536,t=3,p=4" + "$" == "$argon2id$v=19$m=65536,t=3,p=4$";
  }

  // ---------- Hashing and verification ----------

  type Deriver = (seq<Byte>, seq<Byte>, Parameters, nat) -> seq<Byte>

  datatype HashError = InvalidHash | WrongPassword | NoRandomness

  /** The service's `hashWithReader`: the salt is filled from `random`, which may run out. */
  method HashWithReader(plaintext: seq<Byte>, parameters: Parameters, random: seq<Byte>, derive: Deriver)
    returns (r: Result<string, HashError>)
    requires forall p, s, q, n :: |derive(p, s, q, n)| == n
    ensures !ValidParameters(parameters) ==> r == Err(InvalidHash)
    ensures r == Err(InvalidHash) <==>
              !(&& 19456 <= parameters.memory <= 131072 && 1 <= parameters.iterations <= 5
                && 1 <= parameters.parallelism <= 8 && 16 <= parameters.saltLength <= 64
                && 16 <= parameters.keyLength <= 64)
    ensures ValidParameters(parameters) && |random| < parameters.saltLength ==> r == Err(NoRandomness)
    ensures ValidParameters(parameters) && |random| >= parameters.saltLength ==>
              && r.Ok?
              && Parse(r.value) == Some(Parsed(parameters, random[..parameters.saltLength],
                   derive(plaintext, random[..parameters.saltLength], parameters, parameters.keyLength)))
  {
    if !ValidParameters(parameters) {
      return Err(InvalidHash);
    }
    var salt := new Byte[parameters.saltLength];
    var i := 0;
    while i < salt.Length
      invariant 0 <= i <= salt.Length && i <= |random|
      invariant salt[..i] == random[..i]
    {
      if i == |random| {
        return Err(NoRandomness);
      }
      salt[i] := random[i];
      i := i + 1;
    }
    assert salt[..] == random[..parameters.saltLength];
    var digest := derive(plaintext, salt[..], parameters, parameters.keyLength);
    var v := Parsed(parameters, salt[..], digest);
    ParsePrinted(v);
    r := Ok(Print(v));
  }

  function Verify(encoded: string, plaintext: seq<Byte>, derive: Deriver): Result<(), HashError> {
    match Parse(encoded)
    case None => Err(InvalidHash)
    case Some(v) =>
      if derive(plaintext, v.salt, v.parameters, |v.digest|) == v.digest then Ok(()) else Err(WrongPassword)
  }

  predicate NeedsRehash(encoded: string) {
    match Parse(encoded)
    case None => true
    case Some(v) => v.parameters != DEFAULTS
  }

  /** What does not parse verifies nothing, for any plaintext, and wants replacing. */
  lemma UnparsedIsRefused(encoded: string, plaintext: seq<Byte>, derive: Deriver)
    ensures Verify(encoded, plaintext, derive) == Err(InvalidHash) <==> Parse(encoded) == None
    ensures Parse(encoded) == None ==> NeedsRehash(encoded)
  {
  }

  /**
    A freshly printed verifier accepts a plaintext exactly when that plaintext derives the same
    key, and asks for a rehash exactly when its parameters are not the defaults.
   */
  lemma PrintedVerifies(p: seq<Byte>, q: seq<Byte>, salt: seq<Byte>, parameters: Parameters, derive: Deriver)
    requires ValidParameters(parameters) && |salt| == parameters.saltLength
    requires |derive(p, salt, parameters, parameters.keyLength)| == parameters.keyLength
    ensures var n := parameters.keyLength;
            var text := Print(Parsed(parameters, salt, derive(p, salt, parameters, n)));
            && (Verify(text, q, derive).Ok? <==>
                  derive(q, salt, parameters, n) == derive(p, salt, parameters, n))
            && Verify(text, q, derive) != Err(InvalidHash)
            && (NeedsRehash(text) <==> parameters != DEFAULTS)
  {
    ParsePrinted(Parsed(parameters, salt, derive(p, salt, parameters, parameters.keyLength)));
  }
}
