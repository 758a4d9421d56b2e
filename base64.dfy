/**
 * The part of Go's encoding/base64 that the mail handler uses:
 * `base64.StdEncoding.DecodeString` (standard alphabet of section 4 of RFC 4648,
 * `=` padding required), together with the matching encoder.
 *
 * Go's decoder skips every '\r' and '\n' wherever it occurs, so decoding is
 * stated here as: drop those characters, then decode whole 4-character quanta.
 * A partial quantum is an error, `=` may appear only as "xx==" or "xxx=" in the
 * last quantum, and the unused low bits of a padded quantum are ignored
 * (StdEncoding is not in strict mode).
 */
module Base64 {
  import opened Wrappers

  type byte = x: int | 0 <= x < 256
  type sextet = x: int | 0 <= x < 64

  /** Is `c` one of the 64 characters of the standard alphabet? */
  predicate IsAlphabet(c: char) {
    ('A' <= c <= 'Z') || ('a' <= c <= 'z') || ('0' <= c <= '9') || c == '+' || c == '/'
  }

  /** The value of an alphabet character. */
  function ValueOf(c: char): sextet
    requires IsAlphabet(c)
  {
    if 'A' <= c <= 'Z' then (c as int) - ('A' as int)
    else if 'a' <= c <= 'z' then (c as int) - ('a' as int) + 26
    else if '0' <= c <= '9' then (c as int) - ('0' as int) + 52
    else if c == '+' then 62
    else 63
  }

  /** The alphabet character for a 6-bit value. */
  function CharOf(v: sextet): (c: char)
    ensures IsAlphabet(c)
  {
    if v < 26 then (('A' as int) + v) as char
    else if v < 52 then (('a' as int) + v - 26) as char
    else if v < 62 then (('0' as int) + v - 52) as char
    else if v == 62 then '+'
    else '/'
  }

  /** Value and character are inverse to each other, in both directions. */
  lemma ValueOfCharOf(v: sextet)
    ensures ValueOf(CharOf(v)) == v
  {
  }

  lemma CharOfValueOf(c: char)
    requires IsAlphabet(c)
    ensures CharOf(ValueOf(c)) == c
  {
  }

  /** The input with every line break removed, as Go's decoder reads it. */
  function StripLineBreaks(s: string): (t: string)
    ensures |t| <= |s|
    ensures forall i :: 0 <= i < |t| ==> t[i] != '\r' && t[i] != '\n'
  {
    if s == [] then []
    else if s[0] == '\r' || s[0] == '\n' then StripLineBreaks(s[1..])
    else [s[0]] + StripLineBreaks(s[1..])
  }

  /** Three bytes from four sextets (the last two bytes may be dropped by padding). */
  function Bytes3(a: sextet, b: sextet, c: sextet, d: sextet): seq<byte> {
    [a * 4 + b / 16, (b % 16) * 16 + c / 4, (c % 4) * 64 + d]
  }

  /** How one 4-character group decodes: a full group, a padded final group, or an error. */
  datatype Group = Full(bytes: seq<byte>) | Padded(bytes: seq<byte>) | Bad

  /** "xxxx" gives three bytes, "xx==" one and "xxx=" two; anything else is an error. */
  function DecodeGroup(q: string): (g: Group)
    requires |q| == 4
    ensures g.Full? ==> |g.bytes| == 3
    ensures g.Padded? ==> 1 <= |g.bytes| <= 2
  {
    if IsAlphabet(q[0]) && IsAlphabet(q[1]) && IsAlphabet(q[2]) && IsAlphabet(q[3]) then
      Full(Bytes3(ValueOf(q[0]), ValueOf(q[1]), ValueOf(q[2]), ValueOf(q[3])))
    else if IsAlphabet(q[0]) && IsAlphabet(q[1]) && q[2] == '=' && q[3] == '=' then
      Padded(Bytes3(ValueOf(q[0]), ValueOf(q[1]), 0, 0)[..1])
    else if IsAlphabet(q[0]) && IsAlphabet(q[1]) && IsAlphabet(q[2]) && q[3] == '=' then
      Padded(Bytes3(ValueOf(q[0]), ValueOf(q[1]), ValueOf(q[2]), 0)[..2])
    else Bad
  }

  /** Decode a sequence of whole quanta with no line breaks; a padded group must be the last. */
  function DecodeQuanta(t: string): Option<seq<byte>>
    decreases |t|
  {
    if t == [] then Some([])
    else if |t| < 4 then None
    else
      match DecodeGroup(t[..4])
      case Full(b) =>
        (match DecodeQuanta(t[4..])
         case None => None
         case Some(tail) => Some(b + tail))
      case Padded(b) => if t[4..] == [] then Some(b) else None
      case Bad => None
  }

  /** `base64.StdEncoding.DecodeString`: None stands for Go's non-nil error. */
  function Decode(s: string): (r: Option<seq<byte>>)
    ensures r.Some? ==> |StripLineBreaks(s)| % 4 == 0
    ensures r.Some? ==> |r.value| * 4 <= |StripLineBreaks(s)| * 3
  {
    var t := StripLineBreaks(s);
    DecodeQuantaShape(t);
    DecodeQuanta(t)
  }

  lemma {:induction false} DecodeQuantaShape(t: string)
    ensures DecodeQuanta(t).Some? ==> |t| % 4 == 0 && |DecodeQuanta(t).value| * 4 <= |t| * 3
    decreases |t|
  {
    if |t| >= 4 && DecodeQuanta(t).Some? {
      var rest := t[4..];
      DecodeQuantaShape(rest);
      assert |t| == |rest| + 4;
      if DecodeQuanta(rest).Some? {
        AddFour(|rest|);
      }
      match DecodeGroup(t[..4])
      case Full(b) =>
        assert DecodeQuanta(t).value == b + DecodeQuanta(rest).value;
      case Padded(b) =>
        assert rest == [] && DecodeQuanta(t).value == b;
    }
  }

  lemma AddFour(n: nat)
    requires n % 4 == 0
    ensures (n + 4) % 4 == 0
  {
  }

  /** A final quantum "xx==" decodes to one byte. */
  lemma DecodeOnePadded(t: string)
    requires |t| == 4 && IsAlphabet(t[0]) && IsAlphabet(t[1]) && t[2] == '=' && t[3] == '='
    ensures DecodeQuanta(t) == Some(Bytes3(ValueOf(t[0]), ValueOf(t[1]), 0, 0)[..1])
  {
    assert t[..4] == t && t[4..] == [];
  }

  /** Four alphabet characters for three bytes. */
  function Quantum(b0: byte, b1: byte, b2: byte): (q: string)
    ensures |q| == 4
  {
    [CharOf(b0 / 4), CharOf((b0 % 4) * 16 + b1 / 16), CharOf((b1 % 16) * 4 + b2 / 64), CharOf(b2 % 64)]
  }

  /** Standard padded encoding (`base64.StdEncoding.EncodeToString`). */
  function Encode(b: seq<byte>): (s: string)
    decreases |b|
  {
    if b == [] then []
    else if |b| == 1 then Quantum(b[0], 0, 0)[..2] + "=="
    else if |b| == 2 then Quantum(b[0], b[1], 0)[..3] + "="
    else Quantum(b[0], b[1], b[2]) + Encode(b[3..])
  }

  /** Four characters for every started group of three bytes. */
  lemma {:induction false} EncodeLength(b: seq<byte>)
    ensures |Encode(b)| == 4 * ((|b| + 2) / 3)
    decreases |b|
  {
    if |b| > 2 {
      EncodeLength(b[3..]);
      assert (|b| + 2) / 3 == (|b[3..]| + 2) / 3 + 1;
    }
  }

  lemma BytesOfQuantum(b0: byte, b1: byte, b2: byte)
    ensures Bytes3(b0 / 4, (b0 % 4) * 16 + b1 / 16, (b1 % 16) * 4 + b2 / 64, b2 % 64) == [b0, b1, b2]
  {
  }

  lemma {:induction false} EncodeHasNoLineBreaks(b: seq<byte>)
    ensures StripLineBreaks(Encode(b)) == Encode(b)
    decreases |b|
  {
    var s := Encode(b);
    assert forall i :: 0 <= i < |s| ==> s[i] != '\r' && s[i] != '\n' by {
      EncodeChars(b);
    }
    NoLineBreaksStrip(s);
  }

  lemma {:induction false} EncodeChars(b: seq<byte>)
    ensures forall i :: 0 <= i < |Encode(b)| ==> IsAlphabet(Encode(b)[i]) || Encode(b)[i] == '='
    decreases |b|
  {
    if |b| >= 3 {
      EncodeChars(b[3..]);
    }
  }

  lemma {:induction false} NoLineBreaksStrip(s: string)
    requires forall i :: 0 <= i < |s| ==> s[i] != '\r' && s[i] != '\n'
    ensures StripLineBreaks(s) == s
  {
    if s != [] {
      NoLineBreaksStrip(s[1..]);
    }
  }

  /** Decoding undoes encoding, for every byte string. */
  lemma {:induction false} DecodeEncode(b: seq<byte>)
    ensures Decode(Encode(b)) == Some(b)
  {
    EncodeHasNoLineBreaks(b);
    DecodeQuantaEncode(b);
  }

  lemma {:induction false} DecodeQuantaEncode(b: seq<byte>)
    ensures DecodeQuanta(Encode(b)) == Some(b)
    decreases |b|
  {
    if b == [] {
    } else if |b| == 1 {
      DecodeEncodeOne(b[0]);
      assert b == [b[0]];
    } else if |b| == 2 {
      DecodeEncodeTwo(b[0], b[1]);
      assert b == [b[0], b[1]];
    } else {
      DecodeQuantaEncode(b[3..]);
      DecodeEncodeStep(b);
    }
  }

  lemma DecodeEncodeStep(b: seq<byte>)
    requires |b| >= 3 && DecodeQuanta(Encode(b[3..])) == Some(b[3..])
    ensures DecodeQuanta(Encode(b)) == Some(b)
  {
    var tail := b[3..];
    SplitThree(b);
    var q := Quantum(b[0], b[1], b[2]);
    assert Encode(b) == q + Encode(tail);
    DecodeQuantum(b[0], b[1], b[2]);
    DecodeQuantaCons(q, Encode(tail));
  }

  lemma SplitThree(b: seq<byte>)
    requires |b| >= 3
    ensures b == [b[0], b[1], b[2]] + b[3..]
  {
  }

  /** A full quantum in front decodes to its three bytes in front. */
  lemma DecodeQuantaCons(q: string, rest: string)
    requires |q| == 4 && IsAlphabet(q[0]) && IsAlphabet(q[1]) && IsAlphabet(q[2]) && IsAlphabet(q[3])
    ensures DecodeQuanta(q + rest) ==
      match DecodeQuanta(rest)
      case None => None
      case Some(tail) => Some(Bytes3(ValueOf(q[0]), ValueOf(q[1]), ValueOf(q[2]), ValueOf(q[3])) + tail)
  {
    assert (q + rest)[..4] == q && (q + rest)[4..] == rest;
  }

  lemma DecodeQuantum(b0: byte, b1: byte, b2: byte)
    ensures var q := Quantum(b0, b1, b2);
      IsAlphabet(q[0]) && IsAlphabet(q[1]) && IsAlphabet(q[2]) && IsAlphabet(q[3]) &&
      Bytes3(ValueOf(q[0]), ValueOf(q[1]), ValueOf(q[2]), ValueOf(q[3])) == [b0, b1, b2]
  {
    BytesOfQuantum(b0, b1, b2);
    ValueOfCharOf(b0 / 4);
    ValueOfCharOf((b0 % 4) * 16 + b1 / 16);
    ValueOfCharOf((b1 % 16) * 4 + b2 / 64);
    ValueOfCharOf(b2 % 64);
  }

  lemma DecodeEncodeOne(b0: byte)
    ensures DecodeQuanta(Encode([b0])) == Some([b0])
  {
    var s := Encode([b0]);
    var q := Quantum(b0, 0, 0);
    BytesOfQuantum(b0, 0, 0);
    ValueOfCharOf(b0 / 4);
    ValueOfCharOf((b0 % 4) * 16);
    assert s == [q[0], q[1], '=', '='];
    DecodeOnePadded(s);
    assert Bytes3(ValueOf(s[0]), ValueOf(s[1]), 0, 0)[..1] == [b0];
  }

  lemma DecodeEncodeTwo(b0: byte, b1: byte)
    ensures DecodeQuanta(Encode([b0, b1])) == Some([b0, b1])
  {
    var s := Encode([b0, b1]);
    var q := Quantum(b0, b1, 0);
    BytesOfQuantum(b0, b1, 0);
    ValueOfCharOf(b0 / 4);
    ValueOfCharOf((b0 % 4) * 16 + b1 / 16);
    ValueOfCharOf((b1 % 16) * 4);
    assert s == [q[0], q[1], q[2], '='];
    assert s[..4] == s && s[4..] == [];
    assert Bytes3(ValueOf(s[0]), ValueOf(s[1]), ValueOf(s[2]), 0)[..2] == [b0, b1];
  }

  /** A character outside the alphabet, '=', '\r' and '\n' makes decoding fail. */
  lemma {:induction false} DecodeRejectsForeign(s: string, i: nat)
    requires i < |s| && !IsAlphabet(s[i]) && s[i] != '=' && s[i] != '\r' && s[i] != '\n'
    ensures Decode(s) == None
  {
    var j := StripKeeps(s, i);
    DecodeQuantaRejects(StripLineBreaks(s), j);
  }

  lemma {:induction false} StripKeeps(s: string, i: nat) returns (j: nat)
    requires i < |s| && s[i] != '\r' && s[i] != '\n'
    ensures j < |StripLineBreaks(s)| && StripLineBreaks(s)[j] == s[i]
  {
    if i == 0 {
      j := 0;
    } else {
      var k := StripKeeps(s[1..], i - 1);
      j := if s[0] == '\r' || s[0] == '\n' then k else k + 1;
    }
  }

  lemma {:induction false} DecodeQuantaRejects(t: string, j: nat)
    requires j < |t| && !IsAlphabet(t[j]) && t[j] != '='
    ensures DecodeQuanta(t) == None
    decreases |t|
  {
    if |t| >= 4 && j >= 4 {
      DecodeQuantaRejects(t[4..], j - 4);
    } else if |t| >= 4 {
      assert t[..4][j] == t[j];
    }
  }

  /**
   * A '=' that cannot be padding: one that is followed by a further quantum,
   * one among the first two characters of its quantum, or a third character
   * whose quantum does not end in '='.
   */
  predicate MisplacedPad(t: string, j: int) {
    0 <= j < |t| && t[j] == '=' &&
    (j + 4 < |t| || j % 4 < 2 || (j % 4 == 2 && j + 1 < |t| && t[j + 1] != '='))
  }

  lemma ShiftFour(j: int)
    requires j >= 4
    ensures (j - 4) % 4 == j % 4
  {
  }

  lemma {:induction false} DecodeQuantaRejectsPad(t: string, j: nat)
    requires MisplacedPad(t, j)
    ensures DecodeQuanta(t) == None
    decreases |t|
  {
    if |t| >= 4 && j >= 4 {
      ShiftFour(j);
      assert t[4..][j - 4] == t[j];
      assert j + 1 < |t| ==> t[4..][j - 3] == t[j + 1];
      DecodeQuantaRejectsPad(t[4..], j - 4);
    } else if |t| >= 4 {
      var q := t[..4];
      assert q[j] == '=';
      assert j + 1 < 4 ==> q[j + 1] == t[j + 1];
    }
  }

  /** Padding anywhere but at the end of the last quantum makes decoding fail. */
  lemma DecodeRejectsMisplacedPad(s: string, j: nat)
    requires MisplacedPad(StripLineBreaks(s), j)
    ensures Decode(s) == None
  {
    DecodeQuantaRejectsPad(StripLineBreaks(s), j);
  }

  /** "Q===", "QQ=A" and "QQ==QQ==" are rejected. */
  lemma MisplacedPadExamples()
    ensures Decode("Q===") == None && Decode("QQ=A") == None && Decode("QQ==QQ==") == None
  {
    NoLineBreaksStrip("Q===");
    NoLineBreaksStrip("QQ=A");
    NoLineBreaksStrip("QQ==QQ==");
    DecodeRejectsMisplacedPad("Q===", 1);
    DecodeRejectsMisplacedPad("QQ=A", 2);
    DecodeRejectsMisplacedPad("QQ==QQ==", 2);
  }

  /**
   * Decoding then re-encoding need not give back the input: the decoder ignores
   * the unused bits of a padded quantum and skips line breaks.
   */
  lemma ReencodeNotIdentity()
    ensures Decode("QR==") == Some([65]) && Encode([65]) == "QQ=="
    ensures Decode("QQ==\n") == Some([65])
  {
    NoLineBreaksStrip("QR==");
    NoLineBreaksStrip("QQ==");
    assert StripLineBreaks("\n") == [];
    assert StripLineBreaks("=\n") == "=";
    assert StripLineBreaks("==\n") == "==";
    assert StripLineBreaks("Q==\n") == "Q==";
    assert StripLineBreaks("QQ==\n") == "QQ==";
    assert ValueOf('Q') == 16 && ValueOf('R') == 17;
    assert CharOf(16) == 'Q';
    DecodeOnePadded("QR==");
    DecodeOnePadded("QQ==");
    assert Bytes3(16, 17, 0, 0)[..1] == [65];
    assert Bytes3(16, 16, 0, 0)[..1] == [65];
    assert Quantum(65, 0, 0) == "QQAA";
  }
}
