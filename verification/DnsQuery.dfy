/** DNS messages (internal/dns/dns.go): building a query and reading a response.
    The decoder is the reading of a question by sections 3.1 and 4.1.2 of RFC 1035. */
module DnsQuery {
  import opened Splitting
  import opened Wrappers

  const DOT: byte := 46
  const HEADER: seq<byte> := [0x12, 0x34, 0x01, 0x00, 0x00, 0x01, 0x00, 0x00, 0x00, 0x00, 0x00, 0x00]
  const QUESTION_TAIL: seq<byte> := [0x00, 0x01, 0x00, 0x01]

  type Label = seq<byte>

  function LengthOctet(n: nat): byte {
    (n % 256) as byte
  }

  function EncodeLabels(labels: seq<Label>): seq<byte> {
    if labels == [] then []
    else [LengthOctet(|labels[0]|)] + labels[0] + EncodeLabels(labels[1..])
  }

  function Query(domain: seq<byte>): seq<byte> {
    HEADER + EncodeLabels(Split(domain, DOT)) + [0x00] + QUESTION_TAIL
  }

  // ----- The encoder ----------------------------------------------------------------

  method SplitDomain(domain: seq<byte>) returns (labels: seq<Label>)
    ensures labels == Split(domain, 46)
  {
    labels := [];
    var start := 0;
    for i := 0 to |domain|
      invariant Scanned(domain, DOT, labels, start, i)
    {
      ScanStep(domain, DOT, labels, start, i);
      if domain[i] == DOT {
        labels := labels + [domain[start..i]];
        start := i + 1;
      }
    }
    ScanEnd(domain, DOT, labels, start);
    if start < |domain| {
      labels := labels + [domain[start..]];
    }
  }

  method MakeDNSQuery(domain: seq<byte>) returns (msg: seq<byte>)
    ensures msg == Query(domain)
    ensures |msg| > 16 && msg[0] == 0x12 && msg[1] == 0x34
  {
    msg := HEADER;
    var labels := SplitDomain(domain);
    for i := 0 to |labels|
      invariant msg + EncodeLabels(labels[i..]) == HEADER + EncodeLabels(labels)
    {
      ghost var before, rest := msg, EncodeLabels(labels[i + 1..]);
      assert labels[i..][1..] == labels[i + 1..];
      ghost var octet := [LengthOctet(|labels[i]|)];
      assert before + (octet + labels[i] + rest) == before + octet + labels[i] + rest;
      msg := msg + [LengthOctet(|labels[i]|)];
      msg := msg + labels[i];
    }
    assert labels[|labels|..] == [];
    assert msg + [] == msg;
    msg := msg + [0x00];
    msg := msg + [0x00, 0x01];
    msg := msg + [0x00, 0x01];
  }

  // ----- The decoder of RFC 1035 ------------------------------------------------------

  /** Labels of 1 to 63 octets, each behind its length, ended by the zero octet of the
      root. The rest of the message comes back with them. */
  function DecodeLabels(s: seq<byte>): Option<(seq<Label>, seq<byte>)>
    decreases |s|
  {
    if s == [] then None
    else
      var n := s[0] as nat;
      if n == 0 then Some(([], s[1..]))
      else if n >= 64 || |s| < 1 + n then None
      else
        match DecodeLabels(s[1 + n..])
        case None => None
        case Some((labels, rest)) => Some(([s[1..1 + n]] + labels, rest))
  }

  const MAX_NAME := 255

  /** A domain name: its labels and length octets take at most 255 octets in all. */
  function DecodeName(s: seq<byte>): Option<(seq<Label>, seq<byte>)> {
    match DecodeLabels(s)
    case None => None
    case Some((labels, rest)) => if |s| - |rest| <= MAX_NAME then Some((labels, rest)) else None
  }

  function Number(s: seq<byte>, i: nat): nat
    requires i + 1 < |s|
  {
    256 * s[i] as nat + s[i + 1] as nat
  }

  /** A standard query that asks for recursion, with one question and nothing else: the
      fields of section 4.1.1 of RFC 1035. */
  predicate StandardQuery(msg: seq<byte>)
    requires |msg| >= 12
  {
    var flags := Number(msg, 2);
    && flags / 32768 == 0            // QR: a query
    && flags / 2048 % 16 == 0        // OPCODE: standard
    && flags / 512 % 2 == 0          // TC: not truncated
    && flags / 256 % 2 == 1          // RD: recursion desired
    && flags % 128 == 0              // Z and RCODE
    && Number(msg, 4) == 1
    && Number(msg, 6) == 0 && Number(msg, 8) == 0 && Number(msg, 10) == 0
  }

  /** The one question of a query: its name, asked for type A, which is 1, in class IN,
      which is 1, with nothing behind it. */
  function DecodeQuestion(msg: seq<byte>): Option<seq<Label>> {
    if |msg| < 12 || !StandardQuery(msg) then None
    else
      match DecodeName(msg[12..])
      case Some((labels, rest)) =>
        if |rest| == 4 && Number(rest, 0) == 1 && Number(rest, 2) == 1 then Some(labels) else None
      case None => None
  }

  ghost predicate GoodLabel(l: Label) {
    1 <= |l| <= 63
  }

  ghost predicate GoodLabels(labels: seq<Label>) {
    forall i :: 0 <= i < |labels| ==> GoodLabel(labels[i])
  }

  /** The octets of a name: the labels, a length octet for each, and the root. */
  function NameOctets(labels: seq<Label>): nat {
    if labels == [] then 1 else 1 + |labels[0]| + NameOctets(labels[1..])
  }

  ghost predicate Encodable(labels: seq<Label>) {
    GoodLabels(labels) && NameOctets(labels) <= 255
  }

  lemma {:induction false} EncodedSize(labels: seq<Label>)
    ensures |EncodeLabels(labels)| + 1 == NameOctets(labels)
  {
    if labels != [] {
      EncodedSize(labels[1..]);
    }
  }

  function Wire(labels: seq<Label>, tail: seq<byte>): seq<byte> {
    EncodeLabels(labels) + [0] + tail
  }

  /** The bytes of a name begin with those of its first label. */
  lemma WireFront(labels: seq<Label>, tail: seq<byte>)
    requires labels != []
    ensures var s, n := Wire(labels, tail), |labels[0]|;
            && |s| >= 1 + n && s[0] == LengthOctet(n)
            && s[1..1 + n] == labels[0] && s[1 + n..] == Wire(labels[1..], tail)
  {
    var first, rest := labels[0], Wire(labels[1..], tail);
    assert Wire(labels, tail) == [LengthOctet(|first|)] + first + rest;
  }

  /** The encoded labels read back as themselves exactly when each has 1 to 63 octets,
      however many there are. */
  lemma {:induction false} LabelsDecode(labels: seq<Label>, tail: seq<byte>)
    ensures GoodLabels(labels) ==> DecodeLabels(Wire(labels, tail)) == Some((labels, tail))
    ensures var d := DecodeLabels(Wire(labels, tail)); d.Some? && d.value.0 == labels ==> GoodLabels(labels)
    decreases |labels|
  {
    var s := Wire(labels, tail);
    if labels == [] {
      assert s == [0] + tail;
    } else {
      var first, others := labels[0], labels[1..];
      assert labels == [first] + others;
      WireFront(labels, tail);
      if GoodLabel(first) {
        LabelsDecode(others, tail);
        FirstLabel(s, |first|);
        hide DecodeLabels, Wire;
        GoodFront(first, others);
      } else {
        LongLabelMisread(s, first);
      }
    }
  }

  lemma GoodFront(first: Label, others: seq<Label>)
    requires GoodLabel(first)
    ensures GoodLabels([first] + others) <==> GoodLabels(others)
  {
    var labels := [first] + others;
    hide GoodLabel;
    assert forall i :: 0 <= i < |others| ==> labels[i + 1] == others[i];
    assert forall i :: 1 <= i < |labels| ==> labels[i] == others[i - 1];
  }

  lemma FirstLabel(s: seq<byte>, n: nat)
    requires 1 <= n <= 63 && |s| >= 1 + n && s[0] == LengthOctet(n)
    ensures var d, later := DecodeLabels(s), DecodeLabels(s[1 + n..]);
            && (d.Some? <==> later.Some?)
            && (d.Some? ==> d.value == ([s[1..1 + n]] + later.value.0, later.value.1))
            && (d.Some? ==> d.value.0[1..] == later.value.0)
  {
    assert s[0] as nat == n;
  }

  /** A label that is empty or longer than 63 octets is never read back. */
  lemma LongLabelMisread(s: seq<byte>, first: Label)
    requires s != [] && s[0] == LengthOctet(|first|) && !GoodLabel(first)
    ensures DecodeLabels(s).Some? ==> DecodeLabels(s).value.0 == [] || DecodeLabels(s).value.0[0] != first
  {
    var n := s[0] as nat;
    assert n != 0 && n < 64 ==> n != |first|;
  }

  /** The name in a query: its labels read back exactly when they are good, and the
      whole name decodes exactly when it also fits in 255 octets. */
  lemma QueryName(domain: seq<byte>)
    ensures |Query(domain)| >= 12
    ensures var labels, name := Split(domain, DOT), Query(domain)[12..];
            && (GoodLabels(labels) ==> DecodeLabels(name) == Some((labels, QUESTION_TAIL)))
            && (DecodeLabels(name).Some? && DecodeLabels(name).value.0 == labels ==> GoodLabels(labels))
            && |name| == NameOctets(labels) + |QUESTION_TAIL|
  {
    var labels := Split(domain, DOT);
    LabelsDecode(labels, QUESTION_TAIL);
    EncodedSize(labels);
    assert Query(domain)[12..] == Wire(labels, QUESTION_TAIL);
  }

  lemma QueryHeader(domain: seq<byte>)
    ensures |Query(domain)| >= 12 && StandardQuery(Query(domain))
  {
    assert Query(domain)[..12] == HEADER;
    assert forall i :: 0 <= i < 12 ==> Query(domain)[i] == HEADER[i];
  }

  /** By the rules of RFC 1035 the query for a name decodes to the labels of the name
      exactly when every label has 1 to 63 octets and the name at most 255. */
  lemma QueryDecodes(domain: seq<byte>)
    ensures DecodeQuestion(Query(domain)) == Some(Split(domain, DOT)) <==> Encodable(Split(domain, DOT))
  {
    QueryName(domain);
    QueryHeader(domain);
    hide StandardQuery, DecodeLabels, Query;
  }

  /** The encoder checks no length: five labels of 63 octets make a name of 321. */
  lemma LongNameSent() returns (domain: seq<byte>)
    ensures GoodLabels(Split(domain, DOT)) && NameOctets(Split(domain, DOT)) == 321
    ensures DecodeQuestion(Query(domain)) == None
  {
    var l := seq(63, _ => 97 as byte);
    var labels := [l, l, l, l, l];
    domain := Terminated(labels, DOT);
    SplitTerminated(labels, DOT);
    FiveLabels(labels);
    QueryName(domain);
  }

  lemma FiveLabels(labels: seq<Label>)
    requires |labels| == 5 && forall i :: 0 <= i < 5 ==> |labels[i]| == 63
    ensures NameOctets(labels) == 321
  {
    var l1, l2, l3, l4 := labels[1..], labels[2..], labels[3..], labels[4..];
    assert l1[1..] == l2 && l2[1..] == l3 && l3[1..] == l4 && l4[1..] == [];
    assert NameOctets(l4) == 65 && NameOctets(l3) == 129 && NameOctets(l2) == 193 && NameOctets(l1) == 257;
  }

  /** Splitting undoes joining labels with dots, with or without a final dot. The query
      for the joined name carries exactly those labels, and asks for them by the rules
      of RFC 1035 exactly when the name fits in 255 octets. */
  lemma JoinedNameRoundTrip(labels: seq<Label>)
    requires GoodLabels(labels) && Free(labels, DOT)
    ensures Split(Join(labels, DOT), DOT) == labels
    ensures var msg := Query(Join(labels, DOT));
            && |msg| >= 12 && DecodeLabels(msg[12..]) == Some((labels, QUESTION_TAIL))
            && (DecodeQuestion(msg) == Some(labels) <==> NameOctets(labels) <= 255)
    ensures labels != [] ==> Query(Join(labels, DOT) + [DOT]) == Query(Join(labels, DOT))
  {
    assert labels != [] ==> GoodLabel(labels[|labels| - 1]);
    SplitJoin(labels, DOT);
    QueryName(Join(labels, DOT));
    QueryDecodes(Join(labels, DOT));
    if labels != [] {
      JoinTerminated(labels);
      SplitTerminated(labels, DOT);
    }
  }

  lemma {:induction false} JoinTerminated(labels: seq<Label>)
    requires labels != []
    ensures Join(labels, DOT) + [DOT] == Terminated(labels, DOT)
  {
    if |labels| > 1 {
      JoinTerminated(labels[1..]);
    } else {
      assert labels[1..] == [];
    }
  }

  /** Two names of good labels, of any length, have the same query exactly when they are equal up to one
      trailing dot. */
  lemma QueriesDistinguishNames(a: seq<byte>, b: seq<byte>)
    requires GoodLabels(Split(a, DOT)) && GoodLabels(Split(b, DOT))
    ensures Query(a) == Query(b) <==> a == b || a == b + [DOT] || b == a + [DOT]
  {
    QueryName(a);
    QueryName(b);
    SplitRecovers(a, DOT);
    SplitRecovers(b, DOT);
    if a == b + [DOT] {
      TrailingDot(b);
    } else if b == a + [DOT] {
      TrailingDot(a);
    } else if Query(a) == Query(b) {
      assert Split(a, DOT) == Split(b, DOT);
      DropLast(a, b);
    }
  }

  lemma DropLast(a: seq<byte>, b: seq<byte>)
    requires a + [DOT] == b + [DOT] || a == b || a == b + [DOT] || b == a + [DOT]
    ensures a == b || a == b + [DOT] || b == a + [DOT]
  {
    if a + [DOT] == b + [DOT] {
      assert a == (a + [DOT])[..|a|] && b == (b + [DOT])[..|b|];
    }
  }

  /** A trailing dot adds no label unless it follows another dot or nothing at all. */
  lemma TrailingDot(a: seq<byte>)
    requires GoodLabels(Split(a + [DOT], DOT))
    ensures Split(a + [DOT], DOT) == Split(a, DOT)
  {
    SplitRecovers(a, DOT);
    var labels := Split(a, DOT);
    if Terminated(labels, DOT) == a + [DOT] {
      SplitTerminated(labels, DOT);
    } else {
      EmptyLast(labels);
      assert false;
    }
  }

  /** After a final dot, one more dot makes an empty label. */
  lemma EmptyLast(labels: seq<Label>)
    requires Free(labels, DOT)
    ensures !GoodLabels(Split(Terminated(labels, DOT) + [DOT], DOT))
  {
    var longer := labels + [[]];
    TerminatedSnoc(labels, [], DOT);
    assert Terminated(labels, DOT) + [] + [DOT] == Terminated(labels, DOT) + [DOT];
    SplitTerminated(longer, DOT);
    assert !GoodLabel(longer[|labels|]);
  }

  // ----- Reading a response ---------------------------------------------------------------

  datatype ResponseError = TooShort | NoAnswers

  function Word(data: seq<byte>, i: nat): nat
    requires i + 1 < |data|
  {
    data[i] as nat * 256 + data[i + 1] as nat
  }

  /** Where the records are taken to start: five octets past the first zero octet
      among the first twelve, which may lie in the header. */
  function RecordStart(data: seq<byte>): nat
    requires |data| >= 12
  {
    var z := Find(data[..12], 0);
    if z == 12 then 12 else z + 5
  }

  /** The IPv4 addresses of the first `count` records from `offset` on. */
  function Addresses(data: seq<byte>, offset: nat, count: nat): (ips: seq<seq<byte>>)
    ensures |ips| <= count
    ensures if offset <= |data| then 16 * |ips| <= |data| - offset else ips == []
    ensures forall i :: 0 <= i < |ips| ==> |ips[i]| == 4
    decreases count
  {
    if count == 0 || offset + 12 > |data| then []
    else
      var start, length := offset + 12, Word(data, offset + 10);
      var rest := Addresses(data, start + length, count - 1);
      if Word(data, offset + 2) == 1 && length == 4 && start + 4 <= |data|
      then [data[start..start + 4]] + rest
      else rest
  }

  function Response(data: seq<byte>): (r: Result<seq<seq<byte>>, ResponseError>)
    ensures r.Success? ==> |data| >= 12 && |r.value| <= Word(data, 6) && 16 * |r.value| <= |data|
  {
    if |data| < 12 then Failure(TooShort)
    else if Word(data, 6) == 0 then Failure(NoAnswers)
    else
      Success(Addresses(data, RecordStart(data), Word(data, 6)))
  }

  /** Reading never leaves the message, whatever its bytes: every index is checked
      here, and at most one address per 16 octets comes back. */
  method ParseDNSResponse(data: seq<byte>) returns (r: Result<seq<seq<byte>>, ResponseError>)
    ensures r == Response(data)
    ensures r.Success? ==> |r.value| <= Word(data, 6) && 16 * |r.value| <= |data|
  {
    if |data| < 12 {
      return Failure(TooShort);
    }
    var ancount := data[6] as nat * 256 + data[7] as nat;
    if ancount == 0 {
      return Failure(NoAnswers);
    }
    var offset := SkipQuestion(data);
    var ips := ReadRecords(data, offset, ancount);
    r := Success(ips);
  }

  /** The first loop of the parser. */
  method SkipQuestion(data: seq<byte>) returns (offset: nat)
    requires |data| >= 12
    ensures offset == RecordStart(data)
    ensures (forall i :: 0 <= i < 12 ==> data[i] != 0) ==> offset == 12
    ensures forall i :: 0 <= i < 12 && data[i] == 0 && 0 !in data[..i] ==> offset == i + 5
  {
    offset := 12;
    var i := 0;
    while i < offset
      invariant i <= 12 && offset == 12 && 0 !in data[..i]
    {
      if data[i] == 0 {
        StartFound(data, i);
        return i + 5;
      }
      i := i + 1;
    }
    StartFound(data, 12);
  }

  /** The second loop of the parser. */
  method ReadRecords(data: seq<byte>, start: nat, ancount: nat) returns (ips: seq<seq<byte>>)
    ensures ips == Addresses(data, start, ancount)
  {
    ips := [];
    var i, offset := 0, start;
    while i < ancount && offset + 12 <= |data|
      invariant i <= ancount && offset >= 0
      invariant ips + Addresses(data, offset, ancount - i) == Addresses(data, start, ancount)
      decreases ancount - i
    {
      OneRecord(data, offset, ancount - i, ips);
      hide Addresses;
      var qtype := data[offset + 2] as nat * 256 + data[offset + 3] as nat;
      var rrlen := data[offset + 10] as nat * 256 + data[offset + 11] as nat;
      offset := offset + 12;
      if qtype == 1 && rrlen == 4 && offset + 4 <= |data| {
        ips := ips + [data[offset..offset + 4]];
      }
      offset := offset + rrlen;
      i := i + 1;
    }
    NoMoreRecords(data, offset, ancount - i);
  }

  /** A resource record behind a two-octet name, as in section 4.1.3 of RFC 1035. */
  datatype Record = Record(pointer: (byte, byte), kind: nat, middle: seq<byte>, data: seq<byte>)

  predicate WellFormed(r: Record) {
    r.kind < 65536 && |r.middle| == 6 && |r.data| < 65536
  }

  function EncodeRecord(r: Record): seq<byte> {
    [r.pointer.0, r.pointer.1, (r.kind / 256 % 256) as byte, (r.kind % 256) as byte] + r.middle
    + [(|r.data| / 256 % 256) as byte, (|r.data| % 256) as byte] + r.data
  }

  function EncodeRecords(records: seq<Record>): seq<byte> {
    if records == [] then [] else EncodeRecord(records[0]) + EncodeRecords(records[1..])
  }

  /** The addresses of the records of type A. */
  function AddressesOf(records: seq<Record>): seq<seq<byte>> {
    if records == [] then []
    else (if records[0].kind == 1 && |records[0].data| == 4 then [records[0].data] else []) + AddressesOf(records[1..])
  }

  lemma RecordFields(s: seq<byte>, o: nat, r: Record, more: seq<byte>)
    requires WellFormed(r) && o <= |s| && s[o..] == EncodeRecord(r) + more
    ensures |s| >= o + 12 + |r.data|
    ensures Word(s, o + 2) == r.kind && Word(s, o + 10) == |r.data|
    ensures s[o + 12..o + 12 + |r.data|] == r.data && s[o + 12 + |r.data|..] == more
  {
    var e, rest := EncodeRecord(r), s[o..];
    assert |e| == 12 + |r.data| && e[12..] == r.data;
    assert e[2] == (r.kind / 256 % 256) as byte && e[3] == (r.kind % 256) as byte;
    assert e[10] == (|r.data| / 256 % 256) as byte && e[11] == (|r.data| % 256) as byte;
    assert forall i :: 0 <= i < |e| ==> s[o + i] == rest[i] == e[i];
    assert s[o + 12..o + 12 + |r.data|] == e[12..];
    assert rest[|e|..] == more;
  }

  lemma NextRecord(s: seq<byte>, o: nat, count: nat, r: Record)
    requires count > 0 && |s| >= o + 12 + |r.data| && Word(s, o + 2) == r.kind && Word(s, o + 10) == |r.data|
    requires s[o + 12..o + 12 + |r.data|] == r.data
    ensures Addresses(s, o, count)
            == (if r.kind == 1 && |r.data| == 4 then [r.data] else []) + Addresses(s, o + 12 + |r.data|, count - 1)
  {
    hide Word;
    var rest := Addresses(s, o + 12 + |r.data|, count - 1);
    assert [] + rest == rest;
  }

  /** `s` continues with `t` from offset `o`. */
  ghost predicate At(s: seq<byte>, o: nat, t: seq<byte>) {
    o <= |s| && s[o..] == t
  }

  lemma {:induction false} RecordsAt(s: seq<byte>, o: nat, records: seq<Record>, after: seq<byte>)
    requires forall i :: 0 <= i < |records| ==> WellFormed(records[i])
    requires At(s, o, EncodeRecords(records) + after)
    ensures Addresses(s, o, |records|) == AddressesOf(records)
    decreases |records|
  {
    hide EncodeRecord, EncodeRecords, Addresses, Word, AddressesOf, WellFormed, At, OneAddress;
    if records == [] {
      NoMoreRecords(s, o, 0);
      NoAddresses();
    } else {
      var r, others, more := records[0], records[1..], EncodeRecords(records[1..]) + after;
      RecordsFront(records, after);
      RecordStep(s, o, r, more, |records|);
      assert forall i :: 0 <= i < |others| ==> others[i] == records[i + 1];
      RecordsAt(s, o + 12 + |r.data|, others, after);
      AddressesFront(records);
    }
  }

  lemma NoAddresses()
    ensures AddressesOf([]) == []
  {
  }

  lemma RecordsFront(records: seq<Record>, after: seq<byte>)
    requires records != []
    ensures EncodeRecords(records) + after == EncodeRecord(records[0]) + (EncodeRecords(records[1..]) + after)
  {
    assert EncodeRecords(records) == EncodeRecord(records[0]) + EncodeRecords(records[1..]);
    hide EncodeRecord, EncodeRecords;
    Regroup(EncodeRecord(records[0]), EncodeRecords(records[1..]), after);
  }

  lemma AddressesFront(records: seq<Record>)
    requires records != []
    ensures AddressesOf(records) == OneAddress(records[0]) + AddressesOf(records[1..])
  {
  }

  function OneAddress(r: Record): seq<seq<byte>> {
    if r.kind == 1 && |r.data| == 4 then [r.data] else []
  }

  lemma RecordStep(s: seq<byte>, o: nat, r: Record, more: seq<byte>, count: nat)
    requires WellFormed(r) && At(s, o, EncodeRecord(r) + more) && count > 0
    ensures At(s, o + 12 + |r.data|, more)
    ensures Addresses(s, o, count) == OneAddress(r) + Addresses(s, o + 12 + |r.data|, count - 1)
  {
    RecordFields(s, o, r, more);
    hide EncodeRecord, Addresses, Word;
    NextRecord(s, o, count, r);
  }

  /** From where the records really start, the second loop finds exactly the addresses of
      the records of type A, in order, and skips the others. */
  lemma RecordsReadBack(before: seq<byte>, records: seq<Record>, after: seq<byte>)
    requires forall i :: 0 <= i < |records| ==> WellFormed(records[i])
    ensures Addresses(before + EncodeRecords(records) + after, |before|, |records|) == AddressesOf(records)
  {
    var s := before + EncodeRecords(records) + after;
    assert s[|before|..] == EncodeRecords(records) + after;
    RecordsAt(s, |before|, records, after);
  }

  lemma NoMoreRecords(data: seq<byte>, offset: nat, count: nat)
    requires count == 0 || offset + 12 > |data|
    ensures Addresses(data, offset, count) == []
  {
  }

  lemma OneRecord(data: seq<byte>, offset: nat, count: nat, before: seq<seq<byte>>)
    requires count > 0 && offset + 12 <= |data|
    ensures var start, length := offset + 12, Word(data, offset + 10);
            before + Addresses(data, offset, count)
            == (if Word(data, offset + 2) == 1 && length == 4 && start + 4 <= |data|
                then before + [data[start..start + 4]] else before) + Addresses(data, start + length, count - 1)
  {
    var start, length := offset + 12, Word(data, offset + 10);
    if Word(data, offset + 2) == 1 && length == 4 && start + 4 <= |data| {
      Regroup(before, [data[start..start + 4]], Addresses(data, start + length, count - 1));
    }
  }

  lemma StartFound(data: seq<byte>, i: nat)
    requires |data| >= 12 && i <= 12 && 0 !in data[..i] && (i < 12 ==> data[i] == 0)
    ensures RecordStart(data) == if i == 12 then 12 else i + 5
  {
    if i < 12 {
      assert data[..12] == data[..i] + [0] + data[i + 1..12];
      FindFirst(data[..i], 0, data[i + 1..12]);
    } else {
      FindNone(data[..12], 0);
    }
  }
}
