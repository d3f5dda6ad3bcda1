/** Framing of the Reality transport (internal/transport/reality.go). The cipher is
    an abstract AEAD in the sense of RFC 5116: opening undoes sealing under the same
    key and nonce, and sealing adds a 16-octet tag. */
module Reality {
  import opened Arithmetic
  import opened Wrappers

  type Bytes = seq<byte>

  datatype Aead = Aead(
    seal: (Bytes, Bytes, Bytes) -> Bytes,
    open: (Bytes, Bytes, Bytes) -> Option<Bytes>)

  ghost predicate Opens(a: Aead) {
    forall k, n, p :: a.open(k, n, a.seal(k, n, p)) == Some(p) && |a.seal(k, n, p)| == |p| + TAG_SIZE
  }

  const TAG_SIZE := 16
  const BLOCK_SIZE := 16
  const NONCE_SIZE := 12
  const TWO32: nat := 0x1_0000_0000
  const TWO64: nat := 0x1_0000_0000_0000_0000

  /** AES accepts keys of these sizes only. */
  predicate UsableKey(key: Bytes) {
    |key| == 16 || |key| == 24 || |key| == 32
  }

  // ----- Fixed-width integers ----------------------------------------------------

  function LittleEndian(n: nat, width: nat): (s: Bytes)
    ensures |s| == width
  {
    if width == 0 then [] else [(n % 256) as byte] + LittleEndian(n / 256, width - 1)
  }

  function BigEndian(n: nat, width: nat): (s: Bytes)
    ensures |s| == width
  {
    if width == 0 then [] else BigEndian(n / 256, width - 1) + [(n % 256) as byte]
  }

  function FromLittleEndian(s: Bytes): nat {
    if s == [] then 0 else s[0] as nat + 256 * FromLittleEndian(s[1..])
  }

  function FromBigEndian(s: Bytes): nat {
    if s == [] then 0 else 256 * FromBigEndian(s[..|s| - 1]) + s[|s| - 1] as nat
  }

  function Pow256(k: nat): nat {
    if k == 0 then 1 else 256 * Pow256(k - 1)
  }

  lemma {:induction false} LittleEndianInverse(n: nat, width: nat)
    requires n < Pow256(width)
    ensures FromLittleEndian(LittleEndian(n, width)) == n
    decreases width
  {
    if width > 0 {
      LittleEndianInverse(n / 256, width - 1);
    }
  }

  lemma {:induction false} BigEndianInverse(n: nat, width: nat)
    requires n < Pow256(width)
    ensures FromBigEndian(BigEndian(n, width)) == n
    decreases width
  {
    if width > 0 {
      BigEndianInverse(n / 256, width - 1);
      assert BigEndian(n, width)[..width - 1] == BigEndian(n / 256, width - 1);
    }
  }

  // ----- Frames ----------------------------------------------------------------------

  /** The nonce of the frame with this counter: eight octets of counter, four zeros. */
  function NonceOf(counter: nat): (n: Bytes)
    ensures |n| == NONCE_SIZE
  {
    LittleEndian(counter % TWO64, 8) + [0, 0, 0, 0]
  }

  function Sealed(a: Aead, key: Bytes, counter: nat, plaintext: Bytes): Bytes {
    NonceOf(counter) + a.seal(key, NonceOf(counter), plaintext)
  }

  /** A uint32 length before the sealed message. */
  function Frame(a: Aead, key: Bytes, counter: nat, plaintext: Bytes): Bytes {
    var encrypted := Sealed(a, key, counter, plaintext);
    BigEndian(|encrypted| % TWO32, 4) + encrypted
  }

  /** The largest frame a buffer accepts; the sum is a uint32. */
  function FrameLimit(bufferSize: nat): nat {
    (bufferSize + BLOCK_SIZE + 16) % TWO32
  }

  datatype ReadError =
    NotConnected | LengthMissing | FrameTooLarge(length: nat) | DataMissing | BadKey | TooShort | OpenFailed

  function Opened(a: Aead, key: Bytes, encrypted: Bytes): Result<Bytes, ReadError> {
    if !UsableKey(key) then Failure(BadKey)
    else if |encrypted| < NONCE_SIZE then Failure(TooShort)
    else
      match a.open(key, encrypted[..NONCE_SIZE], encrypted[NONCE_SIZE..])
      case Some(plaintext) => Success(plaintext)
      case None => Failure(OpenFailed)
  }

  /** Reads one frame off a byte stream: the message or an error, and what is left. */
  function ReadFrame(a: Aead, key: Bytes, stream: Bytes, bufferSize: nat): (Result<Bytes, ReadError>, Bytes) {
    if |stream| < 4 then (Failure(LengthMissing), [])
    else
      var length := FromBigEndian(stream[..4]);
      if length > FrameLimit(bufferSize) then (Failure(FrameTooLarge(length)), stream[4..])
      else if |stream| < 4 + length then (Failure(DataMissing), [])
      else (Opened(a, key, stream[4..4 + length]), stream[4 + length..])
  }

  /** The length at the front of a stream: four octets, the highest first. */
  function LengthOf(s: Bytes): nat
    requires |s| >= 4
  {
    16777216 * s[0] as nat + 65536 * s[1] as nat + 256 * s[2] as nat + s[3] as nat
  }

  lemma LengthIs(s: Bytes)
    requires |s| >= 4
    ensures FromBigEndian(s[..4]) == LengthOf(s)
  {
    var a, b, c, d := s[..1], s[..2], s[..3], s[..4];
    assert d[..3] == c && c[..2] == b && b[..1] == a && a[..0] == [];
    assert FromBigEndian(a) == s[0] as nat;
    assert FromBigEndian(b) == 256 * FromBigEndian(a) + s[1] as nat;
    assert FromBigEndian(c) == 256 * FromBigEndian(b) + s[2] as nat;
    assert FromBigEndian(d) == 256 * FromBigEndian(c) + s[3] as nat;
  }

  /** What a frame looks like on the wire: its length, the nonce, and the sealed message. */
  lemma FrameOctets(a: Aead, key: Bytes, counter: nat, p: Bytes)
    requires Opens(a) && FitsLength(p)
    ensures var f := Frame(a, key, counter, p);
            && |f| == 4 + 12 + |p| + 16
            && LengthOf(f) == 12 + |p| + 16
            && f[4..16] == NonceOf(counter)
            && f[16..] == a.seal(key, NonceOf(counter), p)
  {
    var f, encrypted := Frame(a, key, counter, p), Sealed(a, key, counter, p);
    LengthField(|encrypted|);
    LengthIs(f);
    assert f[..4] == BigEndian(|encrypted|, 4);
    assert f[4..] == encrypted;
  }

  /** The nonce is the counter, its lowest octet first, and four zeros. */
  lemma NonceOctets(counter: nat)
    requires counter < 0x1_0000_0000_0000_0000
    ensures var n := NonceOf(counter);
            && |n| == 12
            && EightOctets(n) == counter
            && n[8] == n[9] == n[10] == n[11] == 0
  {
    CounterFits();
    ModUnique(counter, TWO64, 0, counter);
    var width := 8;
    LittleEndianInverse(counter, width);
    FromEight(LittleEndian(counter, width));
    hide LittleEndian, FromLittleEndian;
  }

  function EightOctets(s: Bytes): nat
    requires |s| >= 8
  {
    s[0] as nat + 256 * (s[1] as nat + 256 * (s[2] as nat + 256 * (s[3] as nat
    + 256 * (s[4] as nat + 256 * (s[5] as nat + 256 * (s[6] as nat + 256 * s[7] as nat))))))
  }

  lemma FromEight(s: Bytes)
    requires |s| == 8
    ensures FromLittleEndian(s) == EightOctets(s)
  {
    var s1, s2, s3, s4, s5, s6, s7 := s[1..], s[2..], s[3..], s[4..], s[5..], s[6..], s[7..];
    assert s1[1..] == s2 && s2[1..] == s3 && s3[1..] == s4 && s4[1..] == s5;
    assert s5[1..] == s6 && s6[1..] == s7 && s7[1..] == [];
    assert FromLittleEndian(s7) == s[7] as nat;
    assert FromLittleEndian(s6) == s[6] as nat + 256 * FromLittleEndian(s7);
    assert FromLittleEndian(s5) == s[5] as nat + 256 * FromLittleEndian(s6);
    assert FromLittleEndian(s4) == s[4] as nat + 256 * FromLittleEndian(s5);
    assert FromLittleEndian(s3) == s[3] as nat + 256 * FromLittleEndian(s4);
    assert FromLittleEndian(s2) == s[2] as nat + 256 * FromLittleEndian(s3);
    assert FromLittleEndian(s1) == s[1] as nat + 256 * FromLittleEndian(s2);
  }

  // ----- The transport object ------------------------------------------------------------

  datatype WriteError = WriteNotConnected | WriteBadKey

  class Connection {
    const aead: Aead
    var connected: bool
    var encKey: Bytes
    var decKey: Bytes
    var sendNonce: nat
    /** What this side has put on the wire, and what has arrived and is unread. */
    var sent: Bytes
    var inbox: Bytes

    constructor (aead: Aead)
      ensures this.aead == aead && !connected && sent == [] && inbox == [] && sendNonce == 0
    {
      this.aead, connected, encKey, decKey, sendNonce, sent, inbox := aead, false, [], [], 0, [], [];
    }

    /** The state a successful handshake leaves: derived keys and a zero counter. */
    method Establish(encKey: Bytes, decKey: Bytes)
      modifies this
      ensures connected && this.encKey == encKey && this.decKey == decKey && sendNonce == 0
      ensures sent == old(sent) && inbox == old(inbox)
    {
      this.encKey, this.decKey, sendNonce, connected := encKey, decKey, 0, true;
    }

    method Encrypt(plaintext: Bytes) returns (r: Result<Bytes, WriteError>)
      modifies this`sendNonce
      ensures !UsableKey(encKey) ==> r == Failure(WriteBadKey) && sendNonce == old(sendNonce)
      ensures r.Success? <==> |encKey| == 16 || |encKey| == 24 || |encKey| == 32
      ensures UsableKey(encKey) ==>
        r == Success(Sealed(aead, encKey, old(sendNonce), plaintext)) && sendNonce == (old(sendNonce) + 1) % TWO64
    {
      if !UsableKey(encKey) {
        return Failure(WriteBadKey);
      }
      var nonce := LittleEndian(sendNonce % TWO64, 8) + [0, 0, 0, 0];
      sendNonce := (sendNonce + 1) % TWO64;
      r := Success(nonce + aead.seal(encKey, nonce, plaintext));
    }

    method Write(b: Bytes) returns (r: Result<nat, WriteError>)
      modifies this`sendNonce, this`sent
      ensures r.Success? <==> connected && UsableKey(encKey)
      ensures r.Success? ==>
        && r.value == |b|
        && sent == old(sent) + Frame(aead, encKey, old(sendNonce), b)
        && sendNonce == (old(sendNonce) + 1) % TWO64
      ensures r.Failure? ==> sent == old(sent) && sendNonce == old(sendNonce)
      ensures r.Failure? ==> r.error == if connected then WriteBadKey else WriteNotConnected
    {
      if !connected {
        return Failure(WriteNotConnected);
      }
      var encrypted := Encrypt(b);
      if encrypted.Failure? {
        return Failure(encrypted.error);
      }
      var lengthBuf := BigEndian(|encrypted.value| % TWO32, 4);
      assert sent + lengthBuf + encrypted.value == sent + (lengthBuf + encrypted.value);
      sent := sent + lengthBuf;
      sent := sent + encrypted.value;
      r := Success(|b|);
    }

    method Decrypt(ciphertext: Bytes) returns (r: Result<Bytes, ReadError>)
      ensures r == Opened(aead, decKey, ciphertext)
      ensures r == Failure(BadKey) <==> |decKey| != 16 && |decKey| != 24 && |decKey| != 32
      ensures r == Failure(TooShort) ==> |ciphertext| < 12
      ensures r.Success? ==>
        |ciphertext| >= 12 && aead.open(decKey, ciphertext[..12], ciphertext[12..]) == Some(r.value)
    {
      if !UsableKey(decKey) {
        return Failure(BadKey);
      }
      if |ciphertext| < NONCE_SIZE {
        return Failure(TooShort);
      }
      var plaintext := aead.open(decKey, ciphertext[..NONCE_SIZE], ciphertext[NONCE_SIZE..]);
      r := if plaintext.Some? then Success(plaintext.value) else Failure(OpenFailed);
    }

    /** Fills `b` with the next message and returns how much of it fits. */
    method Read(b: array<byte>) returns (r: Result<nat, ReadError>)
      modifies this`inbox, b
      ensures !connected ==> r == Failure(NotConnected) && inbox == old(inbox) && b[..] == old(b[..])
      ensures connected ==> inbox == ReadFrame(aead, decKey, old(inbox), b.Length).1
      ensures connected && |old(inbox)| < 4 ==> r == Failure(LengthMissing) && inbox == []
      ensures connected && |old(inbox)| >= 4 ==>
        var length := LengthOf(old(inbox));
        if length > (b.Length + 32) % 0x1_0000_0000 then r == Failure(FrameTooLarge(length)) && inbox == old(inbox)[4..]
        else if |old(inbox)| < 4 + length then r == Failure(DataMissing) && inbox == []
        else inbox == old(inbox)[4 + length..] && r != Failure(LengthMissing) && r != Failure(DataMissing)
      ensures connected ==>
        match ReadFrame(aead, decKey, old(inbox), b.Length).0
        case Failure(e) => r == Failure(e) && b[..] == old(b[..])
        case Success(p) =>
          && r == Success(if |p| < b.Length then |p| else b.Length)
          && b[..r.value] == p[..r.value] && b[r.value..] == old(b[r.value..])
    {
      if !connected {
        return Failure(NotConnected);
      }
      if |inbox| < 4 {
        inbox := [];
        return Failure(LengthMissing);
      }
      var length := FromBigEndian(inbox[..4]);
      LengthIs(inbox);
      inbox := inbox[4..];
      if length > FrameLimit(b.Length) {
        return Failure(FrameTooLarge(length));
      }
      if |inbox| < length {
        inbox := [];
        return Failure(DataMissing);
      }
      var encrypted := inbox[..length];
      inbox := inbox[length..];
      var plaintext := Decrypt(encrypted);
      assert old(inbox)[4..4 + length] == encrypted && old(inbox)[4 + length..] == inbox;
      if plaintext.Failure? {
        return Failure(plaintext.error);
      }
      var p := plaintext.value;
      var n := if |p| < b.Length then |p| else b.Length;
      forall i | 0 <= i < n {
        b[i] := p[i];
      }
      r := Success(n);
    }
  }

  // ----- Round trips -----------------------------------------------------------------------

  /** What a sender puts on the wire for a sequence of messages. */
  function Stream(a: Aead, key: Bytes, counter: nat, messages: seq<Bytes>): Bytes
    decreases |messages|
  {
    if messages == [] then []
    else Frame(a, key, counter, messages[0]) + Stream(a, key, (counter + 1) % TWO64, messages[1..])
  }

  /** What Read leaves in a buffer of this size: as much of the message as fits. */
  function Delivered(r: Result<Bytes, ReadError>, bufferSize: nat): Result<Bytes, ReadError> {
    match r
    case Failure(e) => r
    case Success(p) => Success(if |p| <= bufferSize then p else p[..bufferSize])
  }

  /** What Read delivers from a stream into buffers of the given sizes, and the rest. */
  function ReadAll(a: Aead, key: Bytes, stream: Bytes, buffers: seq<nat>): (seq<Result<Bytes, ReadError>>, Bytes)
    decreases |buffers|
  {
    if buffers == [] then ([], stream)
    else
      var (first, rest) := ReadFrame(a, key, stream, buffers[0]);
      var (others, left) := ReadAll(a, key, rest, buffers[1..]);
      ([Delivered(first, buffers[0])] + others, left)
  }

  /** The frame's length fits its 32-bit field. */
  predicate FitsLength(p: Bytes) {
    NONCE_SIZE + |p| + TAG_SIZE < TWO32
  }

  /** A buffer of this size lets the frame through. */
  predicate Admits(bufferSize: nat, p: Bytes) {
    NONCE_SIZE + |p| + TAG_SIZE <= FrameLimit(bufferSize)
  }

  /** What becomes of one frame, for every buffer size: the message, or a refusal after
      the length, by the limit the buffer comes to in 32 bits. */
  lemma FrameReadBack(a: Aead, key: Bytes, counter: nat, p: Bytes, rest: Bytes, bufferSize: nat)
    requires Opens(a) && UsableKey(key) && FitsLength(p)
    ensures ReadFrame(a, key, Frame(a, key, counter, p) + rest, bufferSize)
            == if Admits(bufferSize, p) then (Success(p), rest)
               else (Failure(FrameTooLarge(NONCE_SIZE + |p| + TAG_SIZE)), Sealed(a, key, counter, p) + rest)
  {
    var encrypted := Sealed(a, key, counter, p);
    var stream := Frame(a, key, counter, p) + rest;
    assert |encrypted| == NONCE_SIZE + |p| + TAG_SIZE;
    LengthField(|encrypted|);
    assert stream[..4] == BigEndian(|encrypted|, 4);
    assert stream[4..] == encrypted + rest;
    assert stream[4..4 + |encrypted|] == encrypted && stream[4 + |encrypted|..] == rest;
    assert encrypted[..NONCE_SIZE] == NonceOf(counter);
    assert encrypted[NONCE_SIZE..] == a.seal(key, NonceOf(counter), p);
  }

  /** Below 2^32 - 32 octets a buffer admits messages up to four octets longer than
      itself; a buffer of just 2^32 - 32 admits none. */
  lemma LimitWraps(bufferSize: nat, p: Bytes)
    ensures bufferSize < 0x1_0000_0000 - 32 ==> (Admits(bufferSize, p) <==> |p| <= bufferSize + 4)
    ensures bufferSize == 0x1_0000_0000 - 32 ==> !Admits(bufferSize, p)
  {
    if bufferSize < TWO32 - 32 {
      ModUnique(bufferSize + 32, TWO32, 0, bufferSize + 32);
    } else if bufferSize == TWO32 - 32 {
      ModUnique(TWO32, TWO32, 1, 0);
    }
  }

  /** A buffer of 2^32 - 32 octets, longer than any such message, receives nothing. */
  lemma HugeBufferRefuses(a: Aead, key: Bytes, counter: nat, p: Bytes, rest: Bytes)
    requires Opens(a) && UsableKey(key) && FitsLength(p)
    ensures |p| <= TWO32 - 32 + 4
    ensures ReadFrame(a, key, Frame(a, key, counter, p) + rest, TWO32 - 32).0
            == Failure(FrameTooLarge(NONCE_SIZE + |p| + TAG_SIZE))
  {
    FrameReadBack(a, key, counter, p, rest, TWO32 - 32);
    LimitWraps(TWO32 - 32, p);
  }

  lemma LengthField(n: nat)
    requires n < TWO32
    ensures n % TWO32 == n && FromBigEndian(BigEndian(n, 4)) == n
  {
    assert Pow256(4) == TWO32 by { assert Pow256(2) == 65536; }
    BigEndianInverse(n, 4);
  }

  /** The messages come back exactly and in order. */
  ghost predicate AllDelivered(results: seq<Result<Bytes, ReadError>>, messages: seq<Bytes>) {
    |results| == |messages| && forall i :: 0 <= i < |messages| ==> results[i] == Success(messages[i])
  }

  /** Every buffer holds its message and admits its frame. */
  ghost predicate BuffersServe(buffers: seq<nat>, messages: seq<Bytes>)
    requires |buffers| == |messages|
  {
    forall i :: 0 <= i < |messages| ==> |messages[i]| <= buffers[i] && Admits(buffers[i], messages[i])
  }

  lemma StreamFront(a: Aead, key: Bytes, counter: nat, messages: seq<Bytes>, rest: Bytes)
    requires messages != []
    ensures Stream(a, key, counter, messages) + rest
            == Frame(a, key, counter, messages[0]) + (Stream(a, key, (counter + 1) % TWO64, messages[1..]) + rest)
  {
  }

  /** Reading a stream: its first frame, then the others. */
  lemma ReadFirst(a: Aead, key: Bytes, counter: nat, messages: seq<Bytes>, buffers: seq<nat>, rest: Bytes)
    requires Opens(a) && UsableKey(key) && messages != [] && buffers != [] && FitsLength(messages[0])
    ensures var p, size := messages[0], buffers[0];
            var all := ReadAll(a, key, Stream(a, key, counter, messages) + rest, buffers);
            var later := ReadAll(a, key, Stream(a, key, (counter + 1) % TWO64, messages[1..]) + rest, buffers[1..]);
            && |all.0| == |buffers|
            && (Admits(size, p) ==> all == ([Delivered(Success(p), size)] + later.0, later.1))
            && (!Admits(size, p) ==> all.0[0].Failure?)
  {
    var stream := Stream(a, key, counter, messages) + rest;
    var later := Stream(a, key, (counter + 1) % TWO64, messages[1..]) + rest;
    StreamFront(a, key, counter, messages, rest);
    FrameReadBack(a, key, counter, messages[0], later, buffers[0]);
    ResultsPerBuffer(a, key, stream, buffers);
    hide Stream, Frame, ReadFrame, Admits;
    var first := ReadFrame(a, key, stream, buffers[0]);
    var others := ReadAll(a, key, first.1, buffers[1..]);
    assert ReadAll(a, key, stream, buffers) == ([Delivered(first.0, buffers[0])] + others.0, others.1);
  }

  lemma {:induction false} ResultsPerBuffer(a: Aead, key: Bytes, stream: Bytes, buffers: seq<nat>)
    ensures |ReadAll(a, key, stream, buffers).0| == |buffers|
    decreases |buffers|
  {
    hide ReadFrame;
    if buffers != [] {
      ResultsPerBuffer(a, key, ReadFrame(a, key, stream, buffers[0]).1, buffers[1..]);
    }
  }

  /** Messages written one after another and read with the matching key come back
      exactly and in order, whatever follows them on the wire, exactly if every buffer
      is at least as long as its message and admits its frame. */
  lemma {:induction false} MessagesComeBackExactly(
    a: Aead, key: Bytes, counter: nat, messages: seq<Bytes>, buffers: seq<nat>, rest: Bytes)
    requires Opens(a) && UsableKey(key) && |buffers| == |messages|
    requires forall i :: 0 <= i < |messages| ==> FitsLength(messages[i])
    ensures var (results, left) := ReadAll(a, key, Stream(a, key, counter, messages) + rest, buffers);
            && (AllDelivered(results, messages) <==> BuffersServe(buffers, messages))
            && (BuffersServe(buffers, messages) ==> left == rest)
    decreases |messages|
  {
    if messages == [] {
      assert Stream(a, key, counter, messages) + rest == rest;
    } else {
      var next, p, size := (counter + 1) % TWO64, messages[0], buffers[0];
      var later := ReadAll(a, key, Stream(a, key, next, messages[1..]) + rest, buffers[1..]);
      ReadFirst(a, key, counter, messages, buffers, rest);
      MessagesComeBackExactly(a, key, next, messages[1..], buffers[1..], rest);
      hide ReadAll, Stream, Admits;
      ServeFront(buffers, messages);
      if Admits(size, p) {
        DeliveredFront(Delivered(Success(p), size), later.0, messages);
      }
    }
  }

  lemma ServeFront(buffers: seq<nat>, messages: seq<Bytes>)
    requires |buffers| == |messages| > 0
    ensures BuffersServe(buffers, messages) <==>
      |messages[0]| <= buffers[0] && Admits(buffers[0], messages[0]) && BuffersServe(buffers[1..], messages[1..])
  {
    hide Admits;
    assert buffers == [buffers[0]] + buffers[1..] && messages == [messages[0]] + messages[1..];
  }

  lemma DeliveredFront(first: Result<Bytes, ReadError>, others: seq<Result<Bytes, ReadError>>, messages: seq<Bytes>)
    requires messages != []
    ensures AllDelivered([first] + others, messages) <==>
      first == Success(messages[0]) && AllDelivered(others, messages[1..])
  {
    assert messages == [messages[0]] + messages[1..];
  }

  /** Below 2^32 - 32 octets it is enough that no buffer is shorter than its message. */
  lemma MessagesComeBack(
    a: Aead, key: Bytes, counter: nat, messages: seq<Bytes>, buffers: seq<nat>, rest: Bytes)
    requires Opens(a) && UsableKey(key) && |buffers| == |messages|
    requires forall i :: 0 <= i < |messages| ==>
      |messages[i]| <= buffers[i] && buffers[i] + BLOCK_SIZE + 16 < TWO32
    ensures var (results, left) := ReadAll(a, key, Stream(a, key, counter, messages) + rest, buffers);
            && left == rest && |results| == |messages|
            && forall i :: 0 <= i < |messages| ==> results[i] == Success(messages[i])
  {
    forall i | 0 <= i < |messages| ensures FitsLength(messages[i]) && Admits(buffers[i], messages[i]) {
      LimitWraps(buffers[i], messages[i]);
    }
    MessagesComeBackExactly(a, key, counter, messages, buffers, rest);
  }

  /** A run of successful writes after a handshake, as Write describes each of them. */
  lemma {:induction false} WritesMakeStream(a: Aead, key: Bytes, counter: nat, messages: seq<Bytes>, last: Bytes)
    requires counter < TWO64
    ensures Stream(a, key, counter, messages + [last])
            == Stream(a, key, counter, messages) + Frame(a, key, (counter + |messages|) % TWO64, last)
    decreases |messages|
  {
    if messages == [] {
      assert (messages + [last])[1..] == [];
      ModUnique(counter, TWO64, 0, counter);
    } else {
      WritesMakeStream(a, key, (counter + 1) % TWO64, messages[1..], last);
      assert (messages + [last])[1..] == messages[1..] + [last];
      ModAdd(counter + 1, TWO64, |messages| - 1);
      var first, now := Frame(a, key, counter, messages[0]), Frame(a, key, (counter + |messages|) % TWO64, last);
      var later := Stream(a, key, (counter + 1) % TWO64, messages[1..]);
      assert first + (later + now) == first + later + now;
    }
  }

  /** The counter of the i-th frame of a session. */
  function CounterAt(i: nat): nat {
    if i == 0 then 0 else (CounterAt(i - 1) + 1) % TWO64
  }

  lemma {:induction false} CounterWraps(i: nat)
    ensures CounterAt(i) == i % TWO64
  {
    if i > 0 {
      CounterWraps(i - 1);
      ModAdd(i - 1, TWO64, 1);
    }
  }

  /** Two frames of a session share a nonce exactly when their numbers agree modulo
      2^64; so no two of the first 2^64 do. */
  lemma NonceReuse(i: nat, j: nat)
    ensures NonceOf(CounterAt(i)) == NonceOf(CounterAt(j)) <==>
      i % 0x1_0000_0000_0000_0000 == j % 0x1_0000_0000_0000_0000
    ensures i < j < 0x1_0000_0000_0000_0000 ==> NonceOf(CounterAt(i)) != NonceOf(CounterAt(j))
  {
    CounterWraps(i);
    CounterWraps(j);
    DivMod(i, TWO64);
    DivMod(j, TWO64);
    NonceInjective(CounterAt(i), CounterAt(j), 8);
    if i < j < TWO64 {
      ModUnique(i, TWO64, 0, i);
      ModUnique(j, TWO64, 0, j);
    }
  }

  lemma NonceInjective(c: nat, d: nat, width: nat)
    requires c < TWO64 && d < TWO64 && width == 8
    ensures NonceOf(c) == NonceOf(d) <==> c == d
  {
    CounterFits();
    LittleEndianInverse(c, width);
    LittleEndianInverse(d, width);
    ModUnique(c, TWO64, 0, c);
    ModUnique(d, TWO64, 0, d);
    assert NonceOf(c)[..width] == LittleEndian(c, width);
    assert NonceOf(d)[..width] == LittleEndian(d, width);
  }

  lemma CounterFits()
    ensures Pow256(8) == TWO64
  {
    assert Pow256(2) == 65536;
    assert Pow256(4) == 0x1_0000_0000;
  }
}
