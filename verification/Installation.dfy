/** Installation identifiers (version-4 UUIDs, section 5.4 of RFC 9562) and the seal file's text. */
module Installation {
  import opened Basics

  predicate IsHex(c: char) {
    '0' <= c <= '9' || 'a' <= c <= 'f' || 'A' <= c <= 'F'
  }

  predicate AllHex(s: string) { forall i :: 0 <= i < |s| ==> IsHex(s[i]) }

  function Compact(id: string): string
    requires |id| == 36
  {
    id[0..8] + id[9..13] + id[14..18] + id[19..23] + id[24..36]
  }

  predicate ValidId(id: string) {
    && |id| == 36
    && id[8] == '-' && id[13] == '-' && id[18] == '-' && id[23] == '-'
    && AllHex(Compact(id))
    && id[14] == '4'
    && (id[19] == '8' || id[19] == '9' || id[19] == 'a' || id[19] == 'b')
  }

  function HexDigit(n: bv8): char {
    if n == 0 then '0' else if n == 1 then '1' else if n == 2 then '2' else if n == 3 then '3'
    else if n == 4 then '4' else if n == 5 then '5' else if n == 6 then '6' else if n == 7 then '7'
    else if n == 8 then '8' else if n == 9 then '9' else if n == 10 then 'a' else if n == 11 then 'b'
    else if n == 12 then 'c' else if n == 13 then 'd' else if n == 14 then 'e' else 'f'
  }

  function HexText(bytes: seq<bv8>): (s: string)
    ensures |s| == 2 * |bytes|
    ensures forall i :: 0 <= i < |bytes| ==>
              s[2 * i] == HexDigit(bytes[i] >> 4) && s[2 * i + 1] == HexDigit(bytes[i] & 0x0f)
  {
    if bytes == [] then "" else
    var n := |bytes| - 1;
    HexText(bytes[..n]) + [HexDigit(bytes[n] >> 4), HexDigit(bytes[n] & 0x0f)]
  }

  lemma HexTextIsHex(bytes: seq<bv8>)
    ensures AllHex(HexText(bytes))
  {
    var s := HexText(bytes);
    forall i | 0 <= i < |s| ensures IsHex(s[i]) {
      var k := i / 2;
      assert 0 <= k < |bytes| && (i == 2 * k || i == 2 * k + 1);
      assert s[2 * k] == HexDigit(bytes[k] >> 4) && s[2 * k + 1] == HexDigit(bytes[k] & 0x0f);
    }
  }

  lemma NibblesDetermine(a: bv8, b: bv8)
    requires HexDigit(a >> 4) == HexDigit(b >> 4) && HexDigit(a & 0x0f) == HexDigit(b & 0x0f)
    ensures a == b
  {
    assert a >> 4 == b >> 4 by {
      assert a >> 4 <= 15 && b >> 4 <= 15;
    }
    assert a & 0x0f == b & 0x0f by {
      assert a & 0x0f <= 15 && b & 0x0f <= 15;
    }
  }

  /** Different bytes have different hexadecimal texts. */
  lemma HexTextInjective(a: seq<bv8>, b: seq<bv8>)
    requires HexText(a) == HexText(b)
    ensures a == b
  {
    assert |a| == |b|;
    forall i | 0 <= i < |a| ensures a[i] == b[i] {
      NibblesDetermine(a[i], b[i]);
    }
  }

  /** What the version and variant bits make of sixteen random bytes. */
  function Stamped(random: seq<bv8>): seq<bv8>
    requires |random| == 16
  {
    random[6 := (random[6] & 0x0f) | 0x40][8 := (random[8] & 0x3f) | 0x80]
  }

  lemma StampDigits(b: bv8)
    ensures HexDigit(((b & 0x0f) | 0x40) >> 4) == '4'
    ensures HexDigit(((b & 0x3f) | 0x80) >> 4) in ['8', '9', 'a', 'b']
  {
    assert ((b & 0x0f) | 0x40) >> 4 == 4;
    var v := ((b & 0x3f) | 0x80) >> 4;
    assert v == 8 || v == 9 || v == 10 || v == 11;
  }

  function Dashed(e: string): (id: string)
    requires |e| == 32
    ensures |id| == 36
  {
    e[0..8] + "-" + e[8..12] + "-" + e[12..16] + "-" + e[16..20] + "-" + e[20..32]
  }

  lemma DashedParts(e: string)
    requires |e| == 32
    ensures var id := Dashed(e);
            && id[8] == '-' && id[13] == '-' && id[18] == '-' && id[23] == '-'
            && id[14] == e[12] && id[19] == e[16]
            && Compact(id) == e
  {
    var id := Dashed(e);
    assert id[0..8] == e[0..8] && id[9..13] == e[8..12] && id[14..18] == e[12..16];
    assert id[19..23] == e[16..20] && id[24..36] == e[20..32];
    assert e == e[0..8] + e[8..12] + e[12..16] + e[16..20] + e[20..32];
  }

  lemma StampedIsVersionFour(random: seq<bv8>)
    requires |random| == 16
    ensures ValidId(Dashed(HexText(Stamped(random))))
  {
    var e := HexText(Stamped(random));
    DashedParts(e);
    HexTextIsHex(Stamped(random));
    StampDigits(random[6]);
    StampDigits(random[8]);
    assert e[2 * 6] == HexDigit(Stamped(random)[6] >> 4);
    assert e[2 * 8] == HexDigit(Stamped(random)[8] >> 4);
  }

  /** The service's `newInstallationID`, given its sixteen random bytes. */
  method NewInstallationId(random: seq<bv8>) returns (id: string)
    requires |random| == 16
    ensures ValidId(id)
    ensures Compact(id) == HexText(Stamped(random))
  {
    var value := new bv8[16](i requires 0 <= i < 16 => random[i]);
    value[6] := (value[6] & 0x0f) | 0x40;
    value[8] := (value[8] & 0x3f) | 0x80;
    assert value[..] == Stamped(random);
    id := Dashed(HexText(value[..]));
    StampedIsVersionFour(random);
    DashedParts(HexText(value[..]));
  }

  /** Only the version and the variant bits are overwritten; 122 bits stay random. */
  lemma StampKeepsTheRest(random: seq<bv8>, k: nat)
    requires |random| == 16 && k < 16
    ensures var s := Stamped(random);
            && (k != 6 && k != 8 ==> s[k] == random[k])
            && s[6] >> 4 == 4 && s[6] & 0x0f == random[6] & 0x0f
            && s[8] >> 6 == 2 && s[8] & 0x3f == random[8] & 0x3f
  {
  }

  lemma HexDigitsInOrder(n: bv8)
    requires n < 16
    ensures HexDigit(n) as int == if n < 10 then '0' as int + n as int else 'a' as int + n as int - 10
  {
  }

  /** The validator, character by character: four dashes, hexadecimal digits elsewhere, version and variant. */
  lemma ValidIds(id: string)
    ensures ValidId(id) <==>
              && |id| == 36
              && (forall i :: 0 <= i < 36 ==>
                    if i == 8 || i == 13 || i == 18 || i == 23 then id[i] == '-'
                    else '0' <= id[i] <= '9' || 'a' <= id[i] <= 'f' || 'A' <= id[i] <= 'F')
              && id[14] == '4' && (id[19] == '8' || id[19] == '9' || id[19] == 'a' || id[19] == 'b')
  {
    if |id| == 36 {
      var c := Compact(id);
      assert forall i :: 0 <= i < 8 ==> c[i] == id[i];
      assert forall i :: 8 <= i < 12 ==> c[i] == id[i + 1];
      assert forall i :: 12 <= i < 16 ==> c[i] == id[i + 2];
      assert forall i :: 16 <= i < 20 ==> c[i] == id[i + 3];
      assert forall i :: 20 <= i < 32 ==> c[i] == id[i + 4];
      if ValidId(id) {
        forall i | 0 <= i < 36 && i != 8 && i != 13 && i != 18 && i != 23 ensures IsHex(id[i]) {
          var dashes := if i < 8 then 0 else if i < 13 then 1 else if i < 18 then 2 else if i < 23 then 3 else 4;
          assert c[i - dashes] == id[i];
        }
      }
    }
  }

  // ---------- The seal file's text ----------

  const SEAL_PREFIX := "recasaos-user-bootstrap-v1:"

  function SealText(id: string): string {
    SEAL_PREFIX + id + "\n"
  }

  /** The bounded read of the file, then one final line feed trimmed. */
  function SealValue(text: string): string {
    var contents := if |text| > 128 then text[..128] else text;
    var n := |contents|;
    if n > 0 && contents[n - 1] == '\n' then contents[..n - 1] else contents
  }

  /** What `Load` reads from a seal file holding `text`; `None` is one of its format errors. */
  function ReadSeal(text: string): Option<string> {
    var value := SealValue(text);
    if !(SEAL_PREFIX <= value) || '\n' in value then None else
    var id := value[|SEAL_PREFIX|..];
    if ValidId(id) then Some(id) else None
  }

  lemma ValidIdHasNoNewline(id: string)
    requires ValidId(id)
    ensures '\n' !in id
  {
    forall i | 0 <= i < 36 ensures id[i] != '\n' {
      var c := Compact(id);
      if i < 8 { assert c[i] == id[i]; }
      else if 9 <= i < 13 { assert c[i - 1] == id[i]; }
      else if 14 <= i < 18 { assert c[i - 2] == id[i]; }
      else if 19 <= i < 23 { assert c[i - 3] == id[i]; }
      else if 24 <= i { assert c[i - 4] == id[i]; }
    }
  }

  /**
    A seal file reads as an identifier exactly when it is the published text of that
    identifier, with or without its final line feed.
   */
  lemma SealTextIsCanonical(text: string, id: string)
    ensures ReadSeal(text) == Some(id) <==> ValidId(id) && (text == SealText(id) || text == SEAL_PREFIX + id)
  {
    assert |SEAL_PREFIX| == 27;
    if ValidId(id) && (text == SealText(id) || text == SEAL_PREFIX + id) {
      ValidIdHasNoNewline(id);
      var value := SEAL_PREFIX + id;
      assert forall i :: 0 <= i < 27 ==> SEAL_PREFIX[i] != '\n';
      assert '\n' !in value;
      assert value[27..] == id;
      assert SealText(id)[..63] == value;
    }
    if ReadSeal(text) == Some(id) {
      var value := SealValue(text);
      assert value == SEAL_PREFIX + value[27..];
      assert |value| == 63;
      assert text == value || text == value + "\n";
    }
  }
}
