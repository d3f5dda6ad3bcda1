/** UUID text and bytes (internal/transport/vless.go): parseUUID and the text form
    GenerateRandomUUID prints, which is that of section 4 of RFC 9562. A text is the
    sequence of runes Go's range yields. */
module Uuid {
  import opened Wrappers

  type Bytes = seq<byte>

  datatype ParseError = InvalidLength(length: nat) | InvalidHex(c: byte)

  const HYPHEN := '-'

  /** The UTF-8 encoding of a rune. */
  function Utf8(c: char): (s: Bytes)
    ensures s != []
    ensures if c as int < 0x80 then s == [c as byte] else forall b :: b in s ==> b >= 0x80
  {
    var n := c as int;
    if n < 0x80 then [n as byte]
    else if n < 0x800 then [(0xC0 + n / 64) as byte, (0x80 + n % 64) as byte]
    else if n < 0x1_0000 then
      [(0xE0 + n / 64 / 64) as byte, (0x80 + n / 64 % 64) as byte, (0x80 + n % 64) as byte]
    else
      [(0xF0 + n / 64 / 64 / 64) as byte, (0x80 + n / 64 / 64 % 64) as byte,
       (0x80 + n / 64 % 64) as byte, (0x80 + n % 64) as byte]
  }

  /** The encoding is one to four bytes, from which the rune's number reads back. */
  lemma Utf8Number(c: char)
    ensures var (n, s) := (c as int, Utf8(c));
            || (n < 0x80 && |s| == 1 && s[0] as int == n)
            || (0x80 <= n < 0x800 && |s| == 2 && (s[0] as int - 192) * 64 + (s[1] as int - 128) == n)
            || (0x800 <= n < 0x1_0000 && |s| == 3
                && (s[0] as int - 224) * 4096 + (s[1] as int - 128) * 64 + (s[2] as int - 128) == n)
            || (n >= 0x1_0000 && |s| == 4
                && (s[0] as int - 240) * 262144 + (s[1] as int - 128) * 4096 + (s[2] as int - 128) * 64
                   + (s[3] as int - 128) == n)
  {
  }

  /** The bytes of a text without its hyphens. */
  function Clean(uuid: string): Bytes {
    if uuid == [] then []
    else
      var c := uuid[|uuid| - 1];
      Clean(uuid[..|uuid| - 1]) + if c != HYPHEN then Utf8(c) else []
  }

  function HexValue(b: byte): Option<nat> {
    if '0' as byte <= b <= '9' as byte then Some((b - '0' as byte) as nat)
    else if 'a' as byte <= b <= 'f' as byte then Some((b - 'a' as byte) as nat + 10)
    else if 'A' as byte <= b <= 'F' as byte then Some((b - 'A' as byte) as nat + 10)
    else None
  }

  function Octet(hi: byte, lo: byte): byte
    requires HexValue(hi).Some? && HexValue(lo).Some?
  {
    (HexValue(hi).value * 16 + HexValue(lo).value) as byte
  }

  /** Digit pairs to octets, failing at the first character that is no hex digit. */
  function DecodePairs(s: Bytes): (r: Result<Bytes, ParseError>)
    requires |s| % 2 == 0
    ensures r.Success? ==> |r.value| == |s| / 2
  {
    if s == [] then Success([])
    else if HexValue(s[0]).None? then Failure(InvalidHex(s[0]))
    else if HexValue(s[1]).None? then Failure(InvalidHex(s[1]))
    else
      match DecodePairs(s[2..])
      case Failure(e) => Failure(e)
      case Success(rest) => Success([Octet(s[0], s[1])] + rest)
  }

  function Parsed(uuid: string): Result<Bytes, ParseError> {
    var clean := Clean(uuid);
    if |clean| != 32 then Failure(InvalidLength(|clean|)) else DecodePairs(clean)
  }

  /** `front` octets already decoded, `r` what the rest comes to. */
  function Prepend(front: Bytes, r: Result<Bytes, ParseError>): Result<Bytes, ParseError> {
    match r
    case Failure(e) => r
    case Success(rest) => Success(front + rest)
  }

  method ParseUUID(uuid: string) returns (r: Result<Bytes, ParseError>)
    ensures r == Parsed(uuid)
  {
    var clean: Bytes := [];
    for i := 0 to |uuid|
      invariant clean == Clean(uuid[..i])
    {
      assert uuid[..i + 1][..i] == uuid[..i];
      if uuid[i] != HYPHEN {
        clean := clean + Utf8(uuid[i]);
      }
    }
    assert uuid[..|uuid|] == uuid;
    if |clean| != 32 {
      return Failure(InvalidLength(|clean|));
    }
    r := DecodeClean(clean);
  }

  method DecodeClean(clean: Bytes) returns (r: Result<Bytes, ParseError>)
    requires |clean| == 32
    ensures r == DecodePairs(clean)
  {
    var b := new byte[16](_ => 0);
    assert clean[2 * 0..] == clean && b[..0] == [];
    PrependNothing(DecodePairs(clean));
    for i := 0 to 16
      invariant DecodePairs(clean) == Prepend(b[..i], DecodePairs(clean[2 * i..]))
    {
      ghost var rest := clean[2 * i..];
      assert rest[0] == clean[2 * i] && rest[1] == clean[2 * i + 1] && rest[2..] == clean[2 * (i + 1)..];
      var hi := HexValue(clean[2 * i]);
      if hi.None? {
        return Failure(InvalidHex(clean[2 * i]));
      }
      var lo := HexValue(clean[2 * i + 1]);
      if lo.None? {
        return Failure(InvalidHex(clean[2 * i + 1]));
      }
      ghost var front := b[..i];
      b[i] := (hi.value * 16 + lo.value) as byte;
      assert b[..i + 1] == front + [Octet(clean[2 * i], clean[2 * i + 1])];
      PrependStep(front, Octet(clean[2 * i], clean[2 * i + 1]), DecodePairs(rest[2..]));
    }
    assert clean[2 * 16..] == [] && b[..16] == b[..];
    assert DecodePairs(clean) == Success(b[..] + []);
    assert b[..] + [] == b[..];
    r := Success(b[..]);
  }

  lemma PrependNothing(r: Result<Bytes, ParseError>)
    ensures Prepend([], r) == r
  {
    if r.Success? {
      assert [] + r.value == r.value;
    }
  }

  lemma PrependStep(front: Bytes, o: byte, r: Result<Bytes, ParseError>)
    ensures Prepend(front, Prepend([o], r)) == Prepend(front + [o], r)
  {
    if r.Success? {
      assert front + ([o] + r.value) == front + [o] + r.value;
    }
  }

  // ----- The text form ------------------------------------------------------------------

  const DIGITS := "0123456789abcdef"

  function Hex(bytes: Bytes): string {
    if bytes == [] then ""
    else [DIGITS[bytes[0] as nat / 16], DIGITS[bytes[0] as nat % 16]] + Hex(bytes[1..])
  }

  /** The 8-4-4-4-12 text of sixteen octets. */
  function Format(b: Bytes): string
    requires |b| == 16
  {
    Hex(b[0..4]) + [HYPHEN] + Hex(b[4..6]) + [HYPHEN] + Hex(b[6..8]) + [HYPHEN] + Hex(b[8..10]) + [HYPHEN]
    + Hex(b[10..16])
  }

  // ----- What parses ------------------------------------------------------------------------

  function Dehyphenated(s: string): string {
    if s == [] then []
    else Dehyphenated(s[..|s| - 1]) + if s[|s| - 1] != HYPHEN then [s[|s| - 1]] else []
  }

  predicate IsHex(c: char) {
    '0' <= c <= '9' || 'a' <= c <= 'f' || 'A' <= c <= 'F'
  }

  function Lower(c: char): char
    requires IsHex(c)
  {
    if 'A' <= c <= 'F' then (c as int + 32) as char else c
  }

  ghost predicate AllHex(s: string) {
    forall i :: 0 <= i < |s| ==> IsHex(s[i])
  }

  ghost predicate AllHexBytes(s: Bytes) {
    forall i :: 0 <= i < |s| ==> HexValue(s[i]).Some?
  }

  /** A text cleans to hex digits only if it consists of them, and then byte for byte. */
  lemma {:induction false} CleanDigits(s: string)
    ensures AllHexBytes(Clean(s)) <==> AllHex(Dehyphenated(s))
    ensures AllHex(Dehyphenated(s)) ==> |Clean(s)| == |Dehyphenated(s)|
    ensures AllHex(Dehyphenated(s)) ==>
      forall i :: 0 <= i < |Clean(s)| ==> Clean(s)[i] as int == Dehyphenated(s)[i] as int
    decreases |s|
  {
    if s != [] {
      var front, c := s[..|s| - 1], s[|s| - 1];
      CleanDigits(front);
      if c != HYPHEN {
        var clean, d := Clean(front), Dehyphenated(front);
        assert Clean(s) == clean + Utf8(c) && Dehyphenated(s) == d + [c];
        assert (clean + Utf8(c))[|clean|] == Utf8(c)[0];
        assert (d + [c])[|d|] == c;
        assert forall i :: 0 <= i < |clean| ==> (clean + Utf8(c))[i] == clean[i];
        assert forall i :: 0 <= i < |d| ==> (d + [c])[i] == d[i];
        assert Utf8(c)[0] in Utf8(c);
      } else {
        assert Clean(s) == Clean(front) && Dehyphenated(s) == Dehyphenated(front);
      }
    }
  }

  lemma {:induction false} PairsDecode(s: Bytes)
    requires |s| % 2 == 0
    ensures DecodePairs(s).Success? <==> AllHexBytes(s)
    ensures DecodePairs(s).Success? ==>
      forall i :: 0 <= i < |s| / 2 ==> DecodePairs(s).value[i] == Octet(s[2 * i], s[2 * i + 1])
    decreases |s|
  {
    if s != [] {
      var rest := s[2..];
      PairsDecode(rest);
      assert forall i :: 0 <= i < |rest| ==> rest[i] == s[i + 2];
      if AllHexBytes(rest) && HexValue(s[0]).Some? && HexValue(s[1]).Some? {
        forall i | 0 <= i < |s| ensures HexValue(s[i]).Some? {
          if i >= 2 {
            assert s[i] == rest[i - 2];
          }
        }
        forall i | 0 <= i < |s| / 2 ensures DecodePairs(s).value[i] == Octet(s[2 * i], s[2 * i + 1]) {
          if i > 0 {
            assert DecodePairs(s).value[i] == DecodePairs(rest).value[i - 1];
            assert rest[2 * (i - 1)] == s[2 * i] && rest[2 * (i - 1) + 1] == s[2 * i + 1];
          }
        }
      }
    }
  }

  /** `d` is the characters of `s` other than hyphens, in their order, `at` their positions. */
  ghost predicate Keeps(s: string, d: string, at: seq<nat>) {
    && |at| == |d|
    && (forall k :: 0 <= k < |at| ==> at[k] < |s| && d[k] == s[at[k]])
    && (forall k, l :: 0 <= k < l < |at| ==> at[k] < at[l])
    && (forall i: nat :: i in at <==> i < |s| && s[i] != '-')
  }

  lemma KeepsOne(s: string, d: string, at: seq<nat>, c: char)
    requires Keeps(s, d, at) && c != '-'
    ensures Keeps(s + [c], d + [c], at + [|s|])
  {
    var more, kept := s + [c], at + [|s|];
    forall i: nat ensures i in kept <==> i < |more| && more[i] != '-' {
      assert i in kept <==> i in at || i == |s|;
    }
  }

  lemma DropsOne(s: string, d: string, at: seq<nat>)
    requires Keeps(s, d, at)
    ensures Keeps(s + ['-'], d, at)
  {
    var more := s + ['-'];
    forall i: nat ensures i in at <==> i < |more| && more[i] != '-' {
    }
  }

  /** Dehyphenated keeps exactly the characters that are no hyphen, in their order. */
  lemma {:induction false} KeepsOthers(s: string) returns (at: seq<nat>)
    ensures Keeps(s, Dehyphenated(s), at)
    decreases |s|
  {
    at := [];
    if s != [] {
      hide Dehyphenated, Keeps;
      var front, c := s[..|s| - 1], s[|s| - 1];
      at := KeepsOthers(front);
      LastKept(s);
      assert s == front + [c];
      if c != HYPHEN {
        KeepsOne(front, Dehyphenated(front), at, c);
        at := at + [|front|];
      } else {
        DropsOne(front, Dehyphenated(front), at);
      }
    }
  }

  lemma LastKept(s: string)
    requires s != []
    ensures var (front, c) := (s[..|s| - 1], s[|s| - 1]);
            Dehyphenated(s) == if c == '-' then Dehyphenated(front) else Dehyphenated(front) + [c]
  {
  }

  /** `b` is a character for the hexadecimal digit `n`, of either case. */
  ghost predicate Spells(b: byte, n: nat) {
    n < 16 && (b as char == "0123456789abcdef"[n] || b as char == "0123456789ABCDEF"[n])
  }

  ghost predicate SpellsDigit(b: byte) {
    exists n: nat :: Spells(b, n)
  }

  lemma SpellsValue(b: byte, n: nat)
    ensures Spells(b, n) <==> HexValue(b) == Some(n)
  {
  }

  lemma SpellsSome(b: byte)
    ensures HexValue(b).Some? <==> SpellsDigit(b)
  {
    if HexValue(b).Some? {
      SpellsValue(b, HexValue(b).value);
    }
    if n: nat :| Spells(b, n) {
      SpellsValue(b, n);
    }
  }

  /** Octet `i` of what parses is the two digits at `2i` and `2i + 1`, the high one first. */
  lemma OctetsSpelled(s: string, i: nat) returns (hi: nat, lo: nat)
    requires Parsed(s).Success? && i < 16
    ensures |Dehyphenated(s)| == 32 && |Parsed(s).value| == 16
    ensures var d := Dehyphenated(s);
            d[2 * i] as int < 256 && d[2 * i + 1] as int < 256
            && Spells(d[2 * i] as byte, hi) && Spells(d[2 * i + 1] as byte, lo)
    ensures Parsed(s).value[i] as int == 16 * hi + lo
  {
    OctetDigits(s, i);
    var d := Dehyphenated(s);
    hi, lo := HexValue(d[2 * i] as byte).value, HexValue(d[2 * i + 1] as byte).value;
    SpellsValue(d[2 * i] as byte, hi);
    SpellsValue(d[2 * i + 1] as byte, lo);
  }

  lemma {:induction false} PairsFail(s: Bytes) returns (k: nat)
    requires |s| % 2 == 0 && DecodePairs(s).Failure?
    ensures k < |s| && DecodePairs(s).error == InvalidHex(s[k]) && HexValue(s[k]).None?
    ensures forall j :: 0 <= j < k ==> HexValue(s[j]).Some?
    decreases |s|
  {
    if HexValue(s[0]).None? {
      k := 0;
    } else if HexValue(s[1]).None? {
      k := 1;
    } else {
      k := PairsFail(s[2..]);
      assert forall j :: 0 <= j < k ==> s[2..][j] == s[j + 2];
      k := k + 2;
      assert forall j :: 2 <= j < k ==> s[j] == s[2..][j - 2];
    }
  }

  /** A refused text is one whose cleaned length is not 32, and the error gives that length;
      or else the error gives the first byte that spells no hexadecimal digit. */
  lemma RefusalsNamed(s: string) returns (k: nat)
    requires Parsed(s).Failure?
    ensures |Clean(s)| != 32 ==> Parsed(s).error == InvalidLength(|Clean(s)|)
    ensures |Clean(s)| == 32 ==> k < 32 && Parsed(s).error == InvalidHex(Clean(s)[k])
    ensures |Clean(s)| == 32 ==> !SpellsDigit(Clean(s)[k])
    ensures |Clean(s)| == 32 ==> forall j :: 0 <= j < k ==> SpellsDigit(Clean(s)[j])
  {
    hide SpellsDigit;
    var clean := Clean(s);
    k := 0;
    if |clean| == 32 {
      k := PairsFail(clean);
      SpellsSome(clean[k]);
      forall j | 0 <= j < k ensures SpellsDigit(clean[j]) {
        SpellsSome(clean[j]);
      }
    }
  }

  /** A text parses exactly if it is 32 hex digits once its hyphens are removed. */
  lemma ParsesExactly(s: string)
    ensures Parsed(s).Success? <==> |Dehyphenated(s)| == 32 && AllHex(Dehyphenated(s))
    ensures Parsed(s).Success? <==> |Dehyphenated(s)| == 32 && forall c :: c in Dehyphenated(s) ==>
      '0' <= c <= '9' || 'a' <= c <= 'f' || 'A' <= c <= 'F'
  {
    CleanDigits(s);
    if |Clean(s)| == 32 {
      PairsDecode(Clean(s));
    }
    var d := Dehyphenated(s);
    assert (forall c :: c in d ==> IsHex(c)) ==> forall i :: 0 <= i < |d| ==> d[i] in d;
    assert AllHex(d) <==> forall c :: c in d ==> IsHex(c);
  }

  /** The i-th octet is spelled by the digits 2i and 2i+1, in either case. */
  lemma OctetDigits(s: string, i: nat)
    requires Parsed(s).Success? && i < 16
    ensures |Dehyphenated(s)| == 32 && AllHex(Dehyphenated(s)) && |Parsed(s).value| == 16
    ensures var d := Dehyphenated(s);
            Parsed(s).value[i] == Octet(d[2 * i] as byte, d[2 * i + 1] as byte)
  {
    ParsesExactly(s);
    CleanDigits(s);
    PairsDecode(Clean(s));
  }

  lemma DigitCase(a: char, b: char)
    requires IsHex(a) && IsHex(b)
    ensures HexValue(a as byte).Some? && HexValue(b as byte).Some?
    ensures HexValue(a as byte) == HexValue(b as byte) <==> Lower(a) == Lower(b)
    ensures HexValue(a as byte).value < 16
  {
  }

  ghost predicate SameDigits(a: string, b: string)
    requires AllHex(a) && AllHex(b)
  {
    |a| == |b| && forall i :: 0 <= i < |a| ==> Lower(a[i]) == Lower(b[i])
  }

  lemma OctetsAgree(a: byte, b: byte, c: byte, d: byte)
    requires HexValue(a).Some? && HexValue(b).Some? && HexValue(c).Some? && HexValue(d).Some?
    ensures Octet(a, b) == Octet(c, d) <==> HexValue(a) == HexValue(c) && HexValue(b) == HexValue(d)
  {
    DigitBelow16(a);
    DigitBelow16(b);
    DigitBelow16(c);
    DigitBelow16(d);
    hide HexValue;
  }

  lemma DigitBelow16(b: byte)
    requires HexValue(b).Some?
    ensures HexValue(b).value < 16
  {
  }

  /** Two texts that parse give the same octets exactly if they spell the same digits:
      case and the placement of hyphens do not matter, and nothing else is ignored. */
  lemma ParseIgnoresCaseAndHyphens(s: string, t: string)
    requires Parsed(s).Success? && Parsed(t).Success?
    ensures AllHex(Dehyphenated(s)) && AllHex(Dehyphenated(t))
    ensures Parsed(s) == Parsed(t) <==> SameDigits(Dehyphenated(s), Dehyphenated(t))
  {
    ParsesExactly(s);
    ParsesExactly(t);
    var d, e := Dehyphenated(s), Dehyphenated(t);
    forall i: nat | i < 16
      ensures Parsed(s).value[i] == Parsed(t).value[i] <==>
        Lower(d[2 * i]) == Lower(e[2 * i]) && Lower(d[2 * i + 1]) == Lower(e[2 * i + 1])
    {
      OctetDigits(s, i);
      OctetDigits(t, i);
      DigitCase(d[2 * i], e[2 * i]);
      DigitCase(d[2 * i + 1], e[2 * i + 1]);
      OctetsAgree(d[2 * i] as byte, d[2 * i + 1] as byte, e[2 * i] as byte, e[2 * i + 1] as byte);
    }
    OctetDigits(s, 0);
    OctetDigits(t, 0);
    if Parsed(s) == Parsed(t) {
      forall j | 0 <= j < 32 ensures Lower(d[j]) == Lower(e[j]) {
        assert j == 2 * (j / 2) || j == 2 * (j / 2) + 1;
        assert Parsed(s).value[j / 2] == Parsed(t).value[j / 2];
      }
    }
    if SameDigits(d, e) {
      assert Parsed(s).value == Parsed(t).value;
    }
  }

  // ----- Round trip -------------------------------------------------------------------------------

  lemma {:induction false} DehyphenatedConcat(a: string, b: string)
    ensures Dehyphenated(a + b) == Dehyphenated(a) + Dehyphenated(b)
    decreases |b|
  {
    if b == [] {
      assert a + b == a;
    } else {
      var n := |b| - 1;
      DehyphenatedConcat(a, b[..n]);
      assert (a + b)[..|a| + n] == a + b[..n];
    }
  }

  lemma {:induction false} HexDigits(bytes: Bytes)
    ensures |Hex(bytes)| == 2 * |bytes| && AllHex(Hex(bytes))
    ensures forall i :: 0 <= i < |bytes| ==> DigitsOf(Hex(bytes), i, bytes[i])
  {
    if bytes != [] {
      var tail := bytes[1..];
      HexDigits(tail);
      var rest, text := Hex(tail), Hex(bytes);
      DigitsAreHex(bytes[0] as nat / 16);
      DigitsAreHex(bytes[0] as nat % 16);
      assert forall i :: 2 <= i < |text| ==> text[i] == rest[i - 2];
      forall i | 0 <= i < |bytes| ensures DigitsOf(text, i, bytes[i]) {
        if i > 0 {
          assert DigitsOf(rest, i - 1, tail[i - 1]);
        }
      }
    }
  }

  /** The digits of octet `b` stand at position `2i` of the text. */
  ghost predicate DigitsOf(text: string, i: nat, b: byte) {
    && 2 * i + 1 < |text|
    && text[2 * i] == DIGITS[b as nat / 16] && text[2 * i + 1] == DIGITS[b as nat % 16]
  }

  lemma DigitsAreHex(n: nat)
    requires n < 16
    ensures IsHex(DIGITS[n]) && HexValue(DIGITS[n] as byte) == Some(n)
  {
  }

  lemma {:induction false} HexHasNoHyphen(s: string)
    requires AllHex(s)
    ensures Dehyphenated(s) == s
  {
    if s != [] {
      HexHasNoHyphen(s[..|s| - 1]);
    }
  }

  lemma {:induction false} HexConcat(a: Bytes, b: Bytes)
    ensures Hex(a + b) == Hex(a) + Hex(b)
  {
    if a == [] {
      assert a + b == b;
    } else {
      assert (a + b)[1..] == a[1..] + b;
      HexConcat(a[1..], b);
    }
  }

  lemma DropHyphen(text: string)
    ensures Dehyphenated(text + [HYPHEN]) == Dehyphenated(text)
  {
    assert (text + [HYPHEN])[..|text|] == text;
  }

  lemma Group(text: string, bytes: Bytes, more: Bytes)
    requires Dehyphenated(text) == Hex(bytes)
    ensures Dehyphenated(text + [HYPHEN] + Hex(more)) == Hex(bytes + more)
  {
    DehyphenatedConcat(text + [HYPHEN], Hex(more));
    DropHyphen(text);
    HexDigits(more);
    HexHasNoHyphen(Hex(more));
    HexConcat(bytes, more);
  }

  lemma FiveGroups(a: Bytes, b: Bytes, c: Bytes, d: Bytes, e: Bytes)
    ensures Dehyphenated(Hex(a) + [HYPHEN] + Hex(b) + [HYPHEN] + Hex(c) + [HYPHEN] + Hex(d) + [HYPHEN] + Hex(e))
            == Hex(a + b + c + d + e)
  {
    HexDigits(a);
    HexHasNoHyphen(Hex(a));
    var ab := Hex(a) + [HYPHEN] + Hex(b);
    Group(Hex(a), a, b);
    var abc := ab + [HYPHEN] + Hex(c);
    Group(ab, a + b, c);
    var abcd := abc + [HYPHEN] + Hex(d);
    Group(abc, a + b + c, d);
    Group(abcd, a + b + c + d, e);
  }

  lemma Pieces(b: Bytes, i: nat, j: nat)
    requires i <= j <= |b|
    ensures b[0..i] + b[i..j] == b[0..j]
  {
  }

  lemma FormatDigits(b: Bytes)
    requires |b| == 16
    ensures Dehyphenated(Format(b)) == Hex(b)
  {
    hide Hex, Dehyphenated;
    FiveGroups(b[0..4], b[4..6], b[6..8], b[8..10], b[10..16]);
    Pieces(b, 4, 6);
    Pieces(b, 6, 8);
    Pieces(b, 8, 10);
    Pieces(b, 10, 16);
    assert b[0..16] == b;
  }

  /** The text is 36 characters: hyphens at 8, 13, 18 and 23, lower-case digits elsewhere. */
  lemma FormatShape(b: Bytes)
    requires |b| == 16
    ensures |Format(b)| == 36
    ensures forall i :: 0 <= i < 36 ==>
      if i == 8 || i == 13 || i == 18 || i == 23 then Format(b)[i] == '-'
      else '0' <= Format(b)[i] <= '9' || 'a' <= Format(b)[i] <= 'f'
  {
    HexShape(b[0..4]);
    HexShape(b[4..6]);
    HexShape(b[6..8]);
    HexShape(b[8..10]);
    HexShape(b[10..16]);
    hide Hex;
  }

  lemma {:induction false} HexShape(b: Bytes)
    ensures |Hex(b)| == 2 * |b|
    ensures forall i :: 0 <= i < |Hex(b)| ==> '0' <= Hex(b)[i] <= '9' || 'a' <= Hex(b)[i] <= 'f'
  {
    if b != [] {
      HexShape(b[1..]);
    }
  }

  /** Parsing undoes formatting for every sixteen octets. */
  lemma FormatParsesBack(b: Bytes)
    requires |b| == 16
    ensures Parsed(Format(b)) == Success(b)
  {
    var text := Format(b);
    FormatDigits(b);
    HexDigits(b);
    ParsesExactly(text);
    forall i: nat | i < 16 ensures Parsed(text).value[i] == b[i] {
      OctetDigits(text, i);
      assert DigitsOf(Hex(b), i, b[i]);
      DigitsAreHex(b[i] as nat / 16);
      DigitsAreHex(b[i] as nat % 16);
    }
    OctetDigits(text, 0);
    assert Parsed(text).value == b;
  }
}
