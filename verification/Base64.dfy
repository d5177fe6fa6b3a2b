// The standard base64 encoding with padding (section 4 of RFC 4648), with the decoder's
// tolerances: line breaks are skipped and unused trailing bits are not checked.
module Base64 {
  import opened Model

  type sextet = x: int | 0 <= x < 64

  function EncodeChar(i: sextet): char {
    if i < 26 then ('A' as int + i) as char
    else if i < 52 then ('a' as int + (i - 26)) as char
    else if i < 62 then ('0' as int + (i - 52)) as char
    else if i == 62 then '+' else '/'
  }

  function DecodeChar(c: char): Option<sextet> {
    if 'A' <= c <= 'Z' then Some(c as int - 'A' as int)
    else if 'a' <= c <= 'z' then Some(c as int - 'a' as int + 26)
    else if '0' <= c <= '9' then Some(c as int - '0' as int + 52)
    else if c == '+' then Some(62)
    else if c == '/' then Some(63)
    else None
  }

  predicate IsBreak(c: char) {
    c == '\n' || c == '\r'
  }

  lemma CharRoundTrip(i: sextet)
    ensures DecodeChar(EncodeChar(i)) == Some(i)
    ensures EncodeChar(i) != '=' && !IsBreak(EncodeChar(i))
  {
  }

  lemma DecodedChar(c: char)
    requires DecodeChar(c).Some?
    ensures EncodeChar(DecodeChar(c).value) == c && c != '='
  {
  }

  /** Four characters: three bytes, or two or one with padding. */
  datatype Quantum =
    | Full(i: sextet, j: sextet, k: sextet, l: sextet)
    | Three(i: sextet, j: sextet, k: sextet)
    | Two(i: sextet, j: sextet)

  // ----- bytes and quanta -----

  function ToQuanta(b: seq<byte>): seq<Quantum> {
    if |b| == 0 then []
    else if |b| == 1 then [Two(b[0] / 4, b[0] % 4 * 16)]
    else if |b| == 2 then [Three(b[0] / 4, b[0] % 4 * 16 + b[1] / 16, b[1] % 16 * 4)]
    else [Full(b[0] / 4, b[0] % 4 * 16 + b[1] / 16, b[1] % 16 * 4 + b[2] / 64, b[2] % 64)] + ToQuanta(b[3..])
  }

  function QuantumBytes(q: Quantum): seq<byte> {
    match q
    case Full(i, j, k, l) => [i * 4 + j / 16, j % 16 * 16 + k / 4, k % 4 * 64 + l]
    case Three(i, j, k) => [i * 4 + j / 16, j % 16 * 16 + k / 4]
    case Two(i, j) => [i * 4 + j / 16]
  }

  function FromQuanta(qs: seq<Quantum>): seq<byte> {
    if qs == [] then [] else QuantumBytes(qs[0]) + FromQuanta(qs[1..])
  }

  /** Only the last quantum may be padded. */
  predicate PaddedLast(qs: seq<Quantum>) {
    forall n | 0 <= n < |qs| - 1 :: qs[n].Full?
  }

  /** The bits that a padded quantum carries beyond its bytes are zero. */
  predicate ZeroBits(qs: seq<Quantum>) {
    forall q | q in qs :: (q.Three? ==> q.k % 4 == 0) && (q.Two? ==> q.j % 16 == 0)
  }

  // ----- quanta and text -----

  function QuantumText(q: Quantum): string {
    match q
    case Full(i, j, k, l) => [EncodeChar(i), EncodeChar(j), EncodeChar(k), EncodeChar(l)]
    case Three(i, j, k) => [EncodeChar(i), EncodeChar(j), EncodeChar(k), '=']
    case Two(i, j) => [EncodeChar(i), EncodeChar(j), '=', '=']
  }

  function Text(qs: seq<Quantum>): string {
    if qs == [] then "" else QuantumText(qs[0]) + Text(qs[1..])
  }

  function ParseQuantum(a: char, b: char, c: char, d: char): Option<Quantum> {
    match (DecodeChar(a), DecodeChar(b), DecodeChar(c), DecodeChar(d))
    case (Some(i), Some(j), Some(k), Some(l)) => Some(Full(i, j, k, l))
    case (Some(i), Some(j), Some(k), None) => if d == '=' then Some(Three(i, j, k)) else None
    case (Some(i), Some(j), None, None) => if c == '=' && d == '=' then Some(Two(i, j)) else None
    case _ => None
  }

  function Parse(s: string): Option<seq<Quantum>> {
    if s == "" then Some([])
    else if |s| < 4 then None
    else
      match (ParseQuantum(s[0], s[1], s[2], s[3]), Parse(s[4..]))
      case (Some(q), Some(qs)) => if q.Full? || qs == [] then Some([q] + qs) else None
      case _ => None
  }

  function Encode(b: seq<byte>): string {
    Text(ToQuanta(b))
  }

  predicate NoBreaks(s: string) {
    forall c | c in s :: !IsBreak(c)
  }

  function Strip(s: string): (r: string)
    ensures NoBreaks(r)
    ensures NoBreaks(s) ==> r == s
  {
    if s == [] then []
    else if IsBreak(s[0]) then Strip(s[1..])
    else [s[0]] + Strip(s[1..])
  }

  function Decode(s: string): Option<seq<byte>> {
    match Parse(Strip(s))
    case Some(qs) => Some(FromQuanta(qs))
    case None => None
  }

  // ----- round trip of text -----

  lemma QuantumRoundTrip(q: Quantum)
    ensures var t := QuantumText(q); |t| == 4 && ParseQuantum(t[0], t[1], t[2], t[3]) == Some(q) && NoBreaks(t)
  {
    CharRoundTrip(q.i);
    CharRoundTrip(q.j);
    if !q.Two? {
      CharRoundTrip(q.k);
    }
    if q.Full? {
      CharRoundTrip(q.l);
    }
  }

  lemma {:induction false} TextRoundTrip(qs: seq<Quantum>)
    requires PaddedLast(qs)
    ensures Parse(Text(qs)) == Some(qs) && NoBreaks(Text(qs))
    decreases |qs|
  {
    if qs == [] {
    } else {
      QuantumRoundTrip(qs[0]);
      assert forall n | 0 <= n < |qs[1..]| - 1 :: qs[1..][n] == qs[n + 1];
      TextRoundTrip(qs[1..]);
      assert Text(qs)[4..] == Text(qs[1..]);
      assert qs == [qs[0]] + qs[1..];
    }
  }

  lemma QuantumParsed(a: char, b: char, c: char, d: char)
    requires ParseQuantum(a, b, c, d).Some?
    ensures QuantumText(ParseQuantum(a, b, c, d).value) == [a, b, c, d]
  {
    forall x | DecodeChar(x).Some? {
      DecodedChar(x);
    }
  }

  lemma {:induction false} ParseRoundTrip(s: string)
    requires Parse(s).Some?
    ensures Text(Parse(s).value) == s && PaddedLast(Parse(s).value)
    decreases |s|
  {
    if s != "" {
      var q := ParseQuantum(s[0], s[1], s[2], s[3]).value;
      QuantumParsed(s[0], s[1], s[2], s[3]);
      ParseRoundTrip(s[4..]);
      assert ([q] + Parse(s[4..]).value)[1..] == Parse(s[4..]).value;
      assert s == s[..4] + s[4..];
    }
  }

  // ----- round trip of bytes -----

  lemma ShortBytes(b: seq<byte>)
    requires 0 < |b| < 3
    ensures FromQuanta(ToQuanta(b)) == b && |ToQuanta(b)| == 1 && ZeroBits(ToQuanta(b))
  {
    assert ToQuanta(b)[1..] == [];
  }

  lemma FullBytes(a: byte, b: byte, c: byte)
    ensures QuantumBytes(Full(a / 4, a % 4 * 16 + b / 16, b % 16 * 4 + c / 64, c % 64)) == [a, b, c]
  {
  }

  lemma {:induction false} QuantaOfBytes(b: seq<byte>)
    ensures FromQuanta(ToQuanta(b)) == b && PaddedLast(ToQuanta(b)) && ZeroBits(ToQuanta(b))
    decreases |b|
  {
    if |b| > 2 {
      QuantaOfBytes(b[3..]);
      var qs := ToQuanta(b);
      assert qs[1..] == ToQuanta(b[3..]);
      FullBytes(b[0], b[1], b[2]);
      assert b == [b[0], b[1], b[2]] + b[3..];
      assert forall n | 1 <= n < |qs| :: qs[n] == qs[1..][n - 1];
    } else if |b| > 0 {
      ShortBytes(b);
    }
  }

  lemma LastBits(k: sextet, l: sextet)
    ensures (k % 4 * 64 + l) / 64 == k % 4 && (k % 4 * 64 + l) % 64 == l
  {
  }

  lemma MiddleBits(j: sextet, k: sextet)
    ensures (j % 16 * 16 + k / 4) / 16 == j % 16 && (j % 16 * 16 + k / 4) % 16 * 4 + k % 4 == k
  {
  }

  lemma FirstBits(i: sextet, j: sextet)
    ensures (i * 4 + j / 16) / 4 == i && (i * 4 + j / 16) % 4 * 16 + j % 16 == j
  {
  }

  lemma OneQuantum(q: Quantum, rest: seq<byte>)
    requires !q.Full? ==> rest == []
    requires (q.Three? ==> q.k % 4 == 0) && (q.Two? ==> q.j % 16 == 0)
    ensures ToQuanta(QuantumBytes(q) + rest) == [q] + ToQuanta(rest)
  {
    FirstBits(q.i, q.j);
    if q.Full? {
      MiddleBits(q.j, q.k);
      LastBits(q.k, q.l);
      assert (QuantumBytes(q) + rest)[3..] == rest;
    } else if q.Three? {
      MiddleBits(q.j, q.k);
    }
  }

  lemma {:induction false} BytesOfQuanta(qs: seq<Quantum>)
    requires PaddedLast(qs) && ZeroBits(qs)
    ensures ToQuanta(FromQuanta(qs)) == qs
    decreases |qs|
  {
    if qs == [] {
    } else {
      var rest := qs[1..];
      assert forall n | 0 <= n < |rest| :: rest[n] == qs[n + 1];
      BytesOfQuanta(rest);
      OneQuantum(qs[0], FromQuanta(rest));
      assert qs == [qs[0]] + rest;
    }
  }

  /** Decoding undoes encoding, for every byte string. */
  lemma DecodeEncode(b: seq<byte>)
    ensures Decode(Encode(b)) == Some(b)
  {
    QuantaOfBytes(b);
    TextRoundTrip(ToQuanta(b));
  }

  lemma EncodeInjective(a: seq<byte>, b: seq<byte>)
    requires Encode(a) == Encode(b)
    ensures a == b
  {
    DecodeEncode(a);
    DecodeEncode(b);
  }

  /** A string is the encoding of b exactly when it decodes to b, has no line breaks and its
      unused bits are zero. So distinct strings decode alike only if one breaks the form. */
  lemma CanonicalExact(s: string, b: seq<byte>)
    ensures s == Encode(b) <==> Decode(s) == Some(b) && NoBreaks(s) && ZeroBits(Parse(s).value)
  {
    DecodeEncode(b);
    QuantaOfBytes(b);
    TextRoundTrip(ToQuanta(b));
    if Decode(s) == Some(b) && NoBreaks(s) && ZeroBits(Parse(s).value) {
      ParseRoundTrip(s);
      BytesOfQuanta(Parse(s).value);
    }
  }

  /** A padded quantum of two characters. */
  predicate IsTwo(s: string) {
    |s| == 4 && DecodeChar(s[0]).Some? && DecodeChar(s[1]).Some? && s[2] == '=' && s[3] == '='
  }

  lemma TwoDecodes(s: string)
    requires IsTwo(s)
    ensures Decode(s) == Some([DecodeChar(s[0]).value * 4 + DecodeChar(s[1]).value / 16])
  {
    var q := Two(DecodeChar(s[0]).value, DecodeChar(s[1]).value);
    DecodedChar(s[0]);
    DecodedChar(s[1]);
    CharRoundTrip(q.i);
    CharRoundTrip(q.j);
    assert NoBreaks(s);
    assert s[4..] == "" && [q] + [] == [q] && [q][1..] == [];
    assert Parse(s) == Some([q] + []);
    assert Decode(s) == Some(FromQuanta([q]));
    assert FromQuanta([q]) == QuantumBytes(q) + [];
    assert FromQuanta([q]) == QuantumBytes(q);
  }

  /** The condition on the bits is needed: the four low bits of the second character of a
      padded quantum are ignored, so "AA==" and "AB==" decode alike. */
  lemma DecodeNotInjective() returns (s: string, t: string)
    ensures s != t && Decode(s) == Decode(t) && Decode(s).Some?
  {
    s, t := "AA==", "AB==";
    assert s[1] != t[1];
    TwoDecodes(s);
    TwoDecodes(t);
  }

  // ----- JSON forms of 32-byte arrays -----

  /** Go's copy into a fixed array: extra bytes are dropped, missing ones keep the old. */
  function CopyInto(old32: Bytes32, data: seq<byte>): Bytes32 {
    if |data| >= 32 then data[..32] else data + old32[|data|..]
  }

  function MarshalJson32(b: Bytes32): string {
    "\"" + Encode(b) + "\""
  }

  function UnmarshalJson32(old32: Bytes32, text: string): Option<Bytes32> {
    if |text| < 2 || text[0] != '"' || text[|text| - 1] != '"' then None
    else
      match Decode(text[1..|text| - 1])
      case None => None
      case Some(data) => Some(CopyInto(old32, data))
  }

  /** A quoted string is read as its decoding, of whatever length, copied over the receiver;
      text without quotes or that does not decode is refused. */
  lemma UnmarshalJson32Exact(old32: Bytes32, text: string, s: string)
    ensures text == "\"" + s + "\"" ==> (UnmarshalJson32(old32, text).Some? <==> Decode(s).Some?)
    ensures text == "\"" + s + "\"" && Decode(s).Some? ==>
      UnmarshalJson32(old32, text) == Some(CopyInto(old32, Decode(s).value))
    ensures UnmarshalJson32(old32, text).Some? ==> exists t :: text == "\"" + t + "\""
  {
    if text == "\"" + s + "\"" {
      assert text[1..|text| - 1] == s;
    }
    if UnmarshalJson32(old32, text).Some? {
      assert text == "\"" + text[1..|text| - 1] + "\"";
    }
  }

  /** Any receiver ends up with exactly the marshalled value. */
  lemma Json32RoundTrip(old32: Bytes32, b: Bytes32)
    ensures UnmarshalJson32(old32, MarshalJson32(b)) == Some(b)
  {
    var text := MarshalJson32(b);
    DecodeEncode(b);
    assert text[1..|text| - 1] == Encode(b);
    assert b[..32] == b;
  }

  // ----- the encoding as section 4 of RFC 4648 defines it -----

  /** Table 1: capitals, small letters and digits, each in order, then plus and slash. */
  lemma AlphabetExact(i: sextet)
    ensures EncodeChar(0) == 'A' && EncodeChar(25) == 'Z' && EncodeChar(26) == 'a' && EncodeChar(51) == 'z'
    ensures EncodeChar(52) == '0' && EncodeChar(61) == '9' && EncodeChar(62) == '+' && EncodeChar(63) == '/'
    ensures i < 61 && i != 25 && i != 51 ==> EncodeChar(i + 1) as int == EncodeChar(i) as int + 1
  {
  }

  /** Three bytes as one number of 24 bits. */
  function Group(a: nat, b: nat, c: nat): nat {
    a * 0x1_0000 + b * 0x100 + c
  }

  /** The four six-bit groups of 24 bits from the left, as characters. */
  function GroupText(n: nat): string {
    [EncodeChar(n / 0x4_0000 % 64), EncodeChar(n / 0x1000 % 64), EncodeChar(n / 64 % 64), EncodeChar(n % 64)]
  }

  lemma Over6(q: nat, r: nat)
    requires r < 64
    ensures (q * 64 + r) / 64 == q && (q * 64 + r) % 64 == r
  {
  }

  lemma Over12(q: nat, r: nat)
    requires r < 0x1000
    ensures (q * 0x1000 + r) / 0x1000 == q
  {
  }

  lemma Over18(q: nat, r: nat)
    requires r < 0x4_0000
    ensures (q * 0x4_0000 + r) / 0x4_0000 == q
  {
  }

  /** The four groups of six bits that the encoder takes out of three bytes. */
  lemma Parts(a: byte, b: byte, c: byte) returns (p: nat, q: nat, r: nat, s: nat)
    ensures p == a / 4 < 64 && q == a % 4 * 16 + b / 16 < 64 && r == b % 16 * 4 + c / 64 < 64 && s == c % 64 < 64
    ensures Group(a, b, c) == p * 0x4_0000 + q * 0x1000 + r * 64 + s
  {
    p, q, r, s := a / 4, a % 4 * 16 + b / 16, b % 16 * 4 + c / 64, c % 64;
  }

  lemma PartsOf(p: nat, q: nat, r: nat, s: nat)
    requires p < 64 && q < 64 && r < 64 && s < 64
    ensures var n := p * 0x4_0000 + q * 0x1000 + r * 64 + s;
      n / 0x4_0000 % 64 == p && n / 0x1000 % 64 == q && n / 64 % 64 == r && n % 64 == s
  {
    Over18(p, q * 0x1000 + r * 64 + s);
    Over12(p * 64 + q, r * 64 + s);
    Over6(p * 0x1000 + q * 64 + r, s);
    Over6(0, p);
    Over6(p, q);
    Over6(p * 64 + q, r);
  }

  lemma GroupOf(a: byte, b: byte, c: byte)
    ensures GroupText(Group(a, b, c)) ==
      [EncodeChar(a / 4), EncodeChar(a % 4 * 16 + b / 16), EncodeChar(b % 16 * 4 + c / 64), EncodeChar(c % 64)]
  {
    var p, q, r, s := Parts(a, b, c);
    PartsOf(p, q, r, s);
  }

  lemma OneText(q: Quantum)
    ensures Text([q]) == QuantumText(q)
  {
    assert [q][1..] == [];
    assert Text([q]) == QuantumText(q) + "";
  }

  lemma EncodeOne(b: seq<byte>)
    requires |b| == 1
    ensures Encode(b) == GroupText(Group(b[0], 0, 0))[..2] + "=="
  {
    var q := Two(b[0] / 4, b[0] % 4 * 16);
    assert ToQuanta(b) == [q];
    OneText(q);
    GroupOf(b[0], 0, 0);
  }

  lemma EncodeTwo(b: seq<byte>)
    requires |b| == 2
    ensures Encode(b) == GroupText(Group(b[0], b[1], 0))[..3] + "="
  {
    var q := Three(b[0] / 4, b[0] % 4 * 16 + b[1] / 16, b[1] % 16 * 4);
    assert ToQuanta(b) == [q];
    OneText(q);
    GroupOf(b[0], b[1], 0);
  }

  lemma EncodeMore(b: seq<byte>)
    requires |b| >= 3
    ensures Encode(b) == GroupText(Group(b[0], b[1], b[2])) + Encode(b[3..])
  {
    GroupOf(b[0], b[1], b[2]);
    assert ToQuanta(b)[1..] == ToQuanta(b[3..]);
  }

  /** Three bytes make a group, left to right; at the end missing bytes count as zero, and
      the characters that lie wholly in them are written as padding. */
  lemma EncodeExact(b: seq<byte>)
    ensures b == [] ==> Encode(b) == ""
    ensures |b| == 1 ==> Encode(b) == GroupText(Group(b[0], 0, 0))[..2] + "=="
    ensures |b| == 2 ==> Encode(b) == GroupText(Group(b[0], b[1], 0))[..3] + "="
    ensures |b| >= 3 ==> Encode(b) == GroupText(Group(b[0], b[1], b[2])) + Encode(b[3..])
  {
    if |b| == 1 {
      EncodeOne(b);
    } else if |b| == 2 {
      EncodeTwo(b);
    } else if |b| >= 3 {
      EncodeMore(b);
    }
  }

  // ----- what the decoder accepts -----

  /** A string decodes to b exactly when, without its line breaks, it is the text of quanta
      of which only the last may be padded and whose bytes are b. */
  lemma DecodeExact(s: string, b: seq<byte>)
    ensures Decode(s) == Some(b) <==> exists qs :: PaddedLast(qs) && Text(qs) == Strip(s) && FromQuanta(qs) == b
  {
    if Decode(s) == Some(b) {
      ParseRoundTrip(Strip(s));
    }
    forall qs | PaddedLast(qs) && Text(qs) == Strip(s)
      ensures Decode(s) == Some(FromQuanta(qs))
    {
      TextRoundTrip(qs);
    }
  }

  lemma {:induction false} StripConcat(s: string, t: string)
    ensures Strip(s + t) == Strip(s) + Strip(t)
    decreases |s|
  {
    if s == "" {
      assert s + t == t;
    } else {
      assert (s + t)[1..] == s[1..] + t;
      StripConcat(s[1..], t);
    }
  }

  /** A line break anywhere makes no difference. */
  lemma BreakIgnored(s: string, c: char, t: string)
    requires IsBreak(c)
    ensures Decode(s + [c] + t) == Decode(s + t)
  {
    StripConcat(s + [c], t);
    StripConcat(s, [c]);
    StripConcat(s, t);
    assert Strip([c]) == Strip([c][1..]) == [];
    assert Strip(s) + [] == Strip(s);
  }

  /** Copying into an array sets the bytes there are and keeps the rest. */
  lemma CopyExact(old32: Bytes32, data: seq<byte>, k: nat)
    requires k < 32
    ensures CopyInto(old32, data)[k] == if k < |data| then data[k] else old32[k]
  {
  }
}
