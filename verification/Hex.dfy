/** The hex and device-id codecs of the pairing store. */
module Hex {
  import opened Bytes

  function Digit(v: nat): (c: char)
    requires v < 16
  {
    "0123456789abcdef"[v]
  }

  /** The value of a hex digit of either case. */
  function HexDigit(c: char): Option<nat>
  {
    if '0' <= c <= '9' then Some(c as int - '0' as int)
    else if 'a' <= c <= 'f' then Some(c as int - 'a' as int + 10)
    else if 'A' <= c <= 'F' then Some(c as int - 'A' as int + 10)
    else None
  }

  function Lower(c: char): char
  {
    if 'A' <= c <= 'Z' then (c as int + 32) as char else c
  }

  /** A digit has a value exactly when its lower-case form is the digit of that value. */
  lemma DigitExactly(c: char, v: nat)
    requires v < 16
    ensures HexDigit(c) == Some(v) <==> Lower(c) == Digit(v)
    ensures HexDigit(c).Some? ==> HexDigit(c).value < 16
  {
  }

  function HexOfByte(b: byte): (s: string)
    ensures |s| == 2
  {
    [Digit(b / 16), Digit(b % 16)]
  }

  function EncodeHex(bs: bytes): (s: string)
    ensures |s| == 2 * |bs|
  {
    if bs == [] then "" else HexOfByte(bs[0]) + EncodeHex(bs[1..])
  }

  method EncodeHexLoop(bs: bytes) returns (s: string)
    ensures s == EncodeHex(bs)
  {
    s := "";
    var i := 0;
    while i < |bs|
      invariant 0 <= i <= |bs|
      invariant s + EncodeHex(bs[i..]) == EncodeHex(bs)
    {
      assert bs[i..][0] == bs[i] && bs[i..][1..] == bs[i + 1..];
      s := s + HexOfByte(bs[i]);
      i := i + 1;
    }
    assert bs[i..] == [];
  }

  function DecodePair(hi: char, lo: char): (b: Option<byte>)
  {
    match (HexDigit(hi), HexDigit(lo))
    case (Some(h), Some(l)) =>
      DigitExactly(hi, 0);
      DigitExactly(lo, 0);
      Some(16 * h + l)
    case _ => None
  }

  lemma PairExactly(hi: char, lo: char, b: byte)
    ensures DecodePair(hi, lo) == Some(b) <==> [Lower(hi), Lower(lo)] == HexOfByte(b)
  {
    DigitExactly(hi, b / 16);
    DigitExactly(lo, b % 16);
    if DecodePair(hi, lo) == Some(b) {
      var (h, l) := (HexDigit(hi).value, HexDigit(lo).value);
      assert b / 16 == h && b % 16 == l;
    }
  }

  function LowerAll(s: string): (r: string)
    ensures |r| == |s|
  {
    seq(|s|, i requires 0 <= i < |s| => Lower(s[i]))
  }

  /** The key `s` spells, in hex digits of either case. */
  ghost predicate Spells(s: string, key: bytes)
  {
    |s| == 2 * |key| && LowerAll(s) == EncodeHex(key)
  }

  /** Byte `i` of a hex text sits at characters `2i` and `2i + 1`. */
  lemma {:induction false} EncodeHexAt(bs: bytes, i: nat)
    requires i < |bs|
    ensures EncodeHex(bs)[2 * i..2 * i + 2] == HexOfByte(bs[i])
  {
    if i > 0 {
      EncodeHexAt(bs[1..], i - 1);
      assert EncodeHex(bs)[2..] == EncodeHex(bs[1..]);
      assert EncodeHex(bs)[2 * i..2 * i + 2] == EncodeHex(bs)[2..][2 * (i - 1)..2 * (i - 1) + 2];
    }
  }

  ghost predicate Decodes(s: string, key: bytes, i: nat)
    requires |s| == 2 * |key| && i < |key|
  {
    DecodePair(s[2 * i], s[2 * i + 1]) == Some(key[i])
  }

  ghost predicate SamePair(a: string, b: string, i: nat)
    requires |a| == |b| && 2 * i + 2 <= |a|
  {
    a[2 * i..2 * i + 2] == b[2 * i..2 * i + 2]
  }

  lemma SpellsPairwise(s: string, key: bytes)
    requires |s| == 2 * |key|
    ensures Spells(s, key) <==> forall i :: 0 <= i < |key| ==> Decodes(s, key, i)
  {
    var (a, b) := (LowerAll(s), EncodeHex(key));
    forall i | 0 <= i < |key| ensures Decodes(s, key, i) <==> SamePair(a, b, i) {
      EncodeHexAt(key, i);
      PairExactly(s[2 * i], s[2 * i + 1], key[i]);
      assert a[2 * i..2 * i + 2] == [Lower(s[2 * i]), Lower(s[2 * i + 1])];
    }
    if forall i :: 0 <= i < |key| ==> SamePair(a, b, i) {
      SamePairs(a, b, |key|);
    }
  }

  lemma SamePairs(a: string, b: string, n: nat)
    requires |a| == |b| == 2 * n && forall i :: 0 <= i < n ==> SamePair(a, b, i)
    ensures a == b
  {
    forall k | 0 <= k < |a| ensures a[k] == b[k] {
      var i := k / 2;
      assert SamePair(a, b, i);
      assert a[k] == a[2 * i..2 * i + 2][k - 2 * i];
      assert b[k] == b[2 * i..2 * i + 2][k - 2 * i];
    }
  }

  /** The 32 bytes a text spells, if it does. */
  ghost function KeyOf(s: string): Option<bytes>
  {
    if key: bytes :| |key| == 32 && Spells(s, key) then Some(key) else None
  }

  method DecodeKey32(s: string) returns (r: Option<bytes>)
    ensures r == KeyOf(s)
  {
    if |s| != 64 { return None; }
    var out := new byte[32](_ => 0);
    var i := 0;
    while i < 32
      invariant 0 <= i <= 32
      invariant forall j :: 0 <= j < i ==> DecodePair(s[2 * j], s[2 * j + 1]) == Some(out[j])
    {
      var b := DecodePair(s[2 * i], s[2 * i + 1]);
      if b.None? {
        forall key: bytes | |key| == 32 ensures !Spells(s, key) {
          SpellsPairwise(s, key);
          assert !Decodes(s, key, i);
        }
        return None;
      }
      out[i] := b.value;
      i := i + 1;
    }
    SpellsPairwise(s, out[..]);
    r := Some(out[..]);
    SpelledOnce(s, out[..], KeyOf(s).value);
  }

  lemma SpelledOnce(s: string, a: bytes, b: bytes)
    requires Spells(s, a) && Spells(s, b)
    ensures a == b
  {
    SpellsPairwise(s, a);
    SpellsPairwise(s, b);
    forall i | 0 <= i < |a| ensures a[i] == b[i] {
      assert Decodes(s, a, i) && Decodes(s, b, i);
    }
  }

  lemma DigitIsLower(v: nat)
    requires v < 16
    ensures Lower(Digit(v)) == Digit(v)
  {
  }

  /** What the encoder writes spells what it was given. */
  lemma EncodeSpells(key: bytes)
    ensures Spells(EncodeHex(key), key)
  {
    var s := EncodeHex(key);
    forall i | 0 <= i < |key| ensures Decodes(s, key, i) {
      EncodeHexAt(key, i);
      assert s[2 * i] == s[2 * i..2 * i + 2][0] && s[2 * i + 1] == s[2 * i..2 * i + 2][1];
      DigitIsLower(key[i] / 16);
      DigitIsLower(key[i] % 16);
      PairExactly(s[2 * i], s[2 * i + 1], key[i]);
    }
    SpellsPairwise(s, key);
  }

  lemma KeySurvives(key: bytes)
    requires |key| == 32
    ensures KeyOf(EncodeHex(key)) == Some(key)
  {
    EncodeSpells(key);
    SpelledOnce(EncodeHex(key), key, KeyOf(EncodeHex(key)).value);
  }

  // ---- Device ids ----

  function FormatDeviceId(id: bytes): string
  {
    if id == [] then ""
    else if |id| == 1 then HexOfByte(id[0])
    else HexOfByte(id[0]) + ":" + FormatDeviceId(id[1..])
  }

  function Split(s: string): (parts: seq<string>)
    ensures |parts| >= 1
  {
    if s == "" then [""]
    else if s[0] == ':' then [""] + Split(s[1..])
    else
      var rest := Split(s[1..]);
      [[s[0]] + rest[0]] + rest[1..]
  }

  /** Two characters as the integer parser reads them: it allows a plus sign. */
  function ParsePart(p: string): (b: Option<byte>)
  {
    if |p| != 2 then None
    else if p[0] == '+' then
      DigitExactly(p[1], 0);
      match HexDigit(p[1])
      case Some(v) => Some(v)
      case None => None
    else DecodePair(p[0], p[1])
  }

  /** Exactly two digits, or a plus sign and one, of either case, are read, to their value. */
  lemma {:induction false} PartExactly(p: string, b: byte)
    ensures ParsePart(p) == Some(b) <==>
            |p| == 2 && if p[0] == '+' then b < 16 && Lower(p[1]) == Digit(b) else [Lower(p[0]), Lower(p[1])] == HexOfByte(b)
  {
    if |p| == 2 {
      PairExactly(p[0], p[1], b);
      if b < 16 { DigitExactly(p[1], b); }
      DigitExactly(p[1], 0);
    }
  }

  function ParseParts(parts: seq<string>): Option<bytes>
  {
    if parts == [] then Some([])
    else
      match (ParsePart(parts[0]), ParseParts(parts[1..]))
      case (Some(b), Some(rest)) => Some([b] + rest)
      case _ => None
  }

  function DeviceIdOf(s: string): Option<bytes>
  {
    if |Split(s)| == 6 then ParseParts(Split(s)) else None
  }

  lemma {:induction false} ParsePartsAt(parts: seq<string>)
    ensures match ParseParts(parts)
            case Some(bs) => |bs| == |parts| && forall i :: 0 <= i < |parts| ==> ParsePart(parts[i]) == Some(bs[i])
            case None => exists i :: 0 <= i < |parts| && ParsePart(parts[i]).None?
  {
    if parts != [] {
      ParsePartsAt(parts[1..]);
      if ParseParts(parts).Some? {
        forall i | 0 <= i < |parts| ensures ParsePart(parts[i]) == Some(ParseParts(parts).value[i]) {
          if i > 0 { assert parts[i] == parts[1..][i - 1]; }
        }
      } else if ParsePart(parts[0]).Some? {
        var i :| 0 <= i < |parts[1..]| && ParsePart(parts[1..][i]).None?;
        assert ParsePart(parts[i + 1]).None?;
      }
    }
  }

  method ParseDeviceId(s: string) returns (r: Option<bytes>)
    ensures r == DeviceIdOf(s)
  {
    var parts := Split(s);
    ParsePartsAt(parts);
    var out := new byte[6](_ => 0);
    var i := 0;
    while i < 6
      invariant 0 <= i <= 6 && i <= |parts|
      invariant forall j :: 0 <= j < i ==> ParsePart(parts[j]) == Some(out[j])
    {
      if i == |parts| { return None; }
      var b := ParsePart(parts[i]);
      if b.None? { return None; }
      out[i] := b.value;
      i := i + 1;
    }
    if |parts| > 6 { return None; }
    assert ParseParts(parts).Some?;
    assert out[..] == ParseParts(parts).value;
    r := Some(out[..]);
  }

  lemma SplitChar(c: char, s: string)
    ensures Split([c] + s) == if c == ':' then [""] + Split(s) else [[c] + Split(s)[0]] + Split(s)[1..]
  {
    assert ([c] + s)[1..] == s;
  }

  lemma SplitPair(p: string, rest: string)
    requires |p| == 2 && p[0] != ':' && p[1] != ':'
    ensures Split(p) == [p]
    ensures Split(p + ":" + rest) == [p] + Split(rest)
  {
    var tail := [p[1]] + (":" + rest);
    SplitChar(p[1], "");
    SplitChar(p[0], [p[1]]);
    assert p == [p[0]] + [p[1]] && [p[1]] == [p[1]] + "";
    SplitChar(':', rest);
    SplitChar(p[1], ":" + rest);
    SplitChar(p[0], tail);
    assert p + ":" + rest == [p[0]] + tail;
    assert Split(tail)[1..] == Split(rest) && Split(tail)[0] == [p[1]];
  }

  lemma HexParses(b: byte)
    ensures var p := HexOfByte(b); p[0] != ':' && p[1] != ':' && ParsePart(p) == Some(b)
  {
    var p := HexOfByte(b);
    DigitIsLower(b / 16);
    DigitIsLower(b % 16);
    PairExactly(p[0], p[1], b);
  }

  lemma {:induction false} SplitFormat(id: bytes)
    requires id != []
    ensures |Split(FormatDeviceId(id))| == |id| && ParseParts(Split(FormatDeviceId(id))) == Some(id)
  {
    HexParses(id[0]);
    if |id| == 1 {
      SplitPair(HexOfByte(id[0]), "");
      var parts := [HexOfByte(id[0])];
      assert parts[1..] == [] && ParseParts(parts[1..]) == Some([]);
      assert [id[0]] + [] == id;
    } else {
      SplitFormat(id[1..]);
      SplitPair(HexOfByte(id[0]), FormatDeviceId(id[1..]));
      var parts := Split(FormatDeviceId(id));
      assert parts[1..] == Split(FormatDeviceId(id[1..]));
      assert id == [id[0]] + id[1..];
    }
  }

  lemma DeviceIdSurvives(id: bytes)
    requires |id| == 6
    ensures DeviceIdOf(FormatDeviceId(id)) == Some(id)
  {
    SplitFormat(id);
  }

  /** Each byte is two lower-case digits, the high one first. */
  lemma {:induction false} HexDigitsOf(bs: bytes, i: nat)
    requires i < |bs|
    ensures HexDigit(EncodeHex(bs)[2 * i]) == Some(bs[i] / 16) && HexDigit(EncodeHex(bs)[2 * i + 1]) == Some(bs[i] % 16)
    ensures !('A' <= EncodeHex(bs)[2 * i] <= 'F') && !('A' <= EncodeHex(bs)[2 * i + 1] <= 'F')
  {
    EncodeHexAt(bs, i);
    var s := EncodeHex(bs);
    assert s[2 * i] == s[2 * i..2 * i + 2][0] && s[2 * i + 1] == s[2 * i..2 * i + 2][1];
    DigitIsLower(bs[i] / 16);
    DigitIsLower(bs[i] % 16);
    DigitExactly(s[2 * i], bs[i] / 16);
    DigitExactly(s[2 * i + 1], bs[i] % 16);
  }

  /** The value of every digit, by its character. */
  lemma {:induction false} DigitValues(c: char)
    ensures HexDigit(c) == if '0' <= c <= '9' then Some(c as int - 48) else if 'a' <= c <= 'f' then Some(c as int - 87)
                           else if 'A' <= c <= 'F' then Some(c as int - 55) else None
  {
  }

  /** A device id is its bytes' pairs of digits with colons between. */
  lemma {:induction false} DeviceIdText(id: bytes, i: nat)
    requires i < |id|
    ensures |FormatDeviceId(id)| == 3 * |id| - 1
    ensures FormatDeviceId(id)[3 * i..3 * i + 2] == EncodeHex([id[i]]) && (i + 1 < |id| ==> FormatDeviceId(id)[3 * i + 2] == ':')
  {
    OneByte(id[i]);
    if |id| > 1 {
      TextStep(id, 0);
      assert id[0..] == id;
      var text, rest := FormatDeviceId(id), FormatDeviceId(id[1..]);
      DeviceIdText(id[1..], if i > 0 then i - 1 else 0);
      assert text == HexOfByte(id[0]) + ":" + rest;
      if i > 0 {
        assert id[1..][i - 1] == id[i];
        assert text[3 * i..3 * i + 2] == rest[3 * (i - 1)..3 * (i - 1) + 2];
      }
    }
  }

  lemma {:induction false} OneByte(b: byte)
    ensures EncodeHex([b]) == HexOfByte(b)
  {
    assert [b][1..] == [] && HexOfByte(b) + "" == HexOfByte(b);
  }

  lemma {:induction false} TextStep(id: bytes, i: nat)
    requires i + 1 < |id|
    ensures FormatDeviceId(id[i..]) == HexOfByte(id[i]) + ":" + FormatDeviceId(id[i + 1..])
  {
    assert id[i..][0] == id[i] && id[i..][1..] == id[i + 1..];
  }
}
