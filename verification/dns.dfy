/** `src/dns/mod.rs`: the codec for the message format of section 4.1 of
    RFC 1035. A byte is a number below 256; the source's masks and shifts are
    written as division and remainder. */
module Dns {
  import opened State

  type Byte = n: nat | n < 256
  type Bytes = seq<Byte>
  type Word = n: nat | n < 65536

  const TYPE_A: Word := 1
  const CLASS_IN: Word := 1
  const ANSWER_TTL: Byte := 5
  const HEADER: nat := 12

  /** Labels are at most 63 bytes long: the two bits above mark a compressed name. */
  const COMPRESSED: nat := 64

  function U16(n: Word): Bytes { [n / 256, n % 256] }

  function FromU16(hi: Byte, lo: Byte): Word { 256 * hi + lo }

  datatype Query = Query(
    id: Word,
    opcode: nat,
    rd: bool,
    qname: string,
    qtype: Word,
    qclass: Word,
    questionBytes: Bytes)

  /** `String::from_utf8_lossy`, of which only this is needed. */
  type Decoder = Bytes -> string

  // ----- questions, section 4.1.2 -----

  ghost predicate IsLabel(l: Bytes) { 1 <= |l| < COMPRESSED }

  ghost predicate AreLabels(labels: seq<Bytes>)
  {
    forall l | l in labels :: IsLabel(l)
  }

  function EncodeName(labels: seq<Bytes>): Bytes
    requires forall l | l in labels :: |l| < COMPRESSED
  {
    if labels == [] then [0] else [|labels[0]|] + labels[0] + EncodeName(labels[1..])
  }

  function EncodeQuestion(labels: seq<Bytes>, qtype: Word, qclass: Word): Bytes
    requires forall l | l in labels :: |l| < COMPRESSED
  {
    EncodeName(labels) + U16(qtype) + U16(qclass)
  }

  function Dotted(labels: seq<string>): string
  {
    if labels == [] then "" else if |labels| == 1 then labels[0] else labels[0] + "." + Dotted(labels[1..])
  }

  function Texts(labels: seq<Bytes>, decode: Decoder): seq<string>
  {
    seq(|labels|, i requires 0 <= i < |labels| => decode(labels[i]))
  }

  // ----- parse_query -----

  /** The labels from `pos` on, and where they end. */
  function ReadName(buf: Bytes, pos: nat): Option<(seq<Bytes>, nat)>
    decreases |buf| - pos
  {
    if pos >= |buf| then None
    else if buf[pos] == 0 then Some(([], pos + 1))
    else if buf[pos] >= COMPRESSED || pos + 1 + buf[pos] > |buf| then None
    else
      match ReadName(buf, pos + 1 + buf[pos])
      case None => None
      case Some((labels, end)) => Some(([buf[pos + 1..pos + 1 + buf[pos]]] + labels, end))
  }

  function Parse(buf: Bytes, decode: Decoder): Option<Query>
  {
    if |buf| < HEADER || FromU16(buf[4], buf[5]) != 1 then None
    else
      match ReadName(buf, HEADER)
      case None => None
      case Some((labels, end)) =>
        if end < HEADER || end + 4 > |buf| then None
        else Some(Query(FromU16(buf[0], buf[1]), buf[2] / 8 % 16, buf[2] % 2 == 1, Dotted(Texts(labels, decode)),
                        FromU16(buf[end], buf[end + 1]), FromU16(buf[end + 2], buf[end + 3]), buf[HEADER..end + 4]))
  }

  /** Reading the rest of a name after its first labels. */
  function Prepend(labels: seq<Bytes>, rest: Option<(seq<Bytes>, nat)>): Option<(seq<Bytes>, nat)>
  {
    match rest
    case None => None
    case Some((more, end)) => Some((labels + more, end))
  }

  lemma PrependNothing(rest: Option<(seq<Bytes>, nat)>)
    ensures Prepend([], rest) == rest
  {
    assert rest.Some? ==> [] + rest.value.0 == rest.value.0;
  }

  lemma PrependTwice(a: seq<Bytes>, b: seq<Bytes>, rest: Option<(seq<Bytes>, nat)>)
    ensures Prepend(a, Prepend(b, rest)) == Prepend(a + b, rest)
  {
    assert rest.Some? ==> a + (b + rest.value.0) == a + b + rest.value.0;
  }

  /** `parse_query`: no read is out of bounds, whatever is in the buffer. */
  method ParseQuery(buf: Bytes, decode: Decoder) returns (query: Option<Query>)
    ensures query == Parse(buf, decode)
  {
    if |buf| < 12 {
      return None;
    }
    if FromU16(buf[4], buf[5]) != 1 {
      return None;
    }
    var pos := 12;
    ghost var read: seq<Bytes> := [];
    var labels: seq<string> := [];
    PrependNothing(ReadName(buf, 12));
    while true
      invariant 12 <= pos <= |buf|
      invariant labels == Texts(read, decode)
      invariant ReadName(buf, 12) == Prepend(read, ReadName(buf, pos))
      decreases |buf| - pos
    {
      if pos >= |buf| {
        return None;
      }
      var len := buf[pos];
      if len == 0 {
        pos := pos + 1;
        break;
      }
      if len >= COMPRESSED {
        return None;
      }
      pos := pos + 1;
      if pos + len > |buf| {
        return None;
      }
      ghost var l := buf[pos..pos + len];
      labels := labels + [decode(buf[pos..pos + len])];
      PrependTwice(read, [l], ReadName(buf, pos + len));
      read := read + [l];
      pos := pos + len;
    }
    assert ReadName(buf, 12) == Some((read, pos)) by {
      assert read + [] == read;
    }
    if pos + 4 > |buf| {
      return None;
    }
    return Some(Query(FromU16(buf[0], buf[1]), buf[2] / 8 % 16, buf[2] % 2 == 1, Dotted(labels),
                      FromU16(buf[pos], buf[pos + 1]), FromU16(buf[pos + 2], buf[pos + 3]), buf[12..pos + 4]));
  }

  /** These bytes stand at `pos`. */
  ghost predicate Stands(buf: Bytes, pos: nat, a: Bytes)
  {
    pos + |a| <= |buf| && buf[pos..pos + |a|] == a
  }

  lemma Split(buf: Bytes, pos: nat, a: Bytes, b: Bytes)
    requires Stands(buf, pos, a + b)
    ensures Stands(buf, pos, a) && Stands(buf, pos + |a|, b)
  {
    var both := buf[pos..pos + |a + b|];
    assert both[..|a|] == a && both[|a|..] == b;
    assert buf[pos..pos + |a|] == both[..|a|];
    assert buf[pos + |a|..pos + |a| + |b|] == both[|a|..];
  }

  lemma SplitThree(buf: Bytes, pos: nat, a: Bytes, b: Bytes, c: Bytes)
    requires Stands(buf, pos, a + b + c)
    ensures Stands(buf, pos, a) && Stands(buf, pos + |a|, b) && Stands(buf, pos + |a| + |b|, c)
  {
    Split(buf, pos, a + b, c);
    Split(buf, pos, a, b);
  }

  lemma Joined(buf: Bytes, pos: nat, a: Bytes, b: Bytes)
    requires Stands(buf, pos, a) && Stands(buf, pos + |a|, b)
    ensures Stands(buf, pos, a + b)
  {
  }

  lemma StandsIn(a: Bytes, b: Bytes, c: Bytes)
    ensures Stands(a + b + c, |a|, b) && Stands(a + b + c, 0, a) && Stands(a + b + c, |a| + |b|, c)
  {
  }

  lemma ByteAt(buf: Bytes, pos: nat, x: Byte)
    requires Stands(buf, pos, [x])
    ensures buf[pos] == x
  {
    assert buf[pos] == buf[pos..pos + 1][0];
  }

  /** What is read back is what an encoder wrote. */
  lemma {:induction false} ReadInvertsEncode(buf: Bytes, pos: nat, labels: seq<Bytes>)
    requires AreLabels(labels) && Stands(buf, pos, EncodeName(labels))
    ensures ReadName(buf, pos) == Some((labels, pos + |EncodeName(labels)|))
    decreases |labels|
  {
    if labels == [] {
      ByteAt(buf, pos, 0);
    } else {
      FirstLabelAt(buf, pos, labels);
      ReadInvertsEncode(buf, pos + 1 + |labels[0]|, labels[1..]);
      ReadLabel(buf, pos, labels, pos + |EncodeName(labels)|);
    }
  }

  lemma FirstLabelAt(buf: Bytes, pos: nat, labels: seq<Bytes>)
    requires AreLabels(labels) && labels != [] && Stands(buf, pos, EncodeName(labels))
    ensures IsLabel(labels[0]) && AreLabels(labels[1..])
    ensures Stands(buf, pos, [|labels[0]|]) && Stands(buf, pos + 1, labels[0])
    ensures Stands(buf, pos + 1 + |labels[0]|, EncodeName(labels[1..]))
    ensures |EncodeName(labels)| == 1 + |labels[0]| + |EncodeName(labels[1..])|
  {
    var l, more := labels[0], labels[1..];
    TailLabels(labels);
    SplitThree(buf, pos, [|l|], l, EncodeName(more));
  }

  lemma ReadLabel(buf: Bytes, pos: nat, labels: seq<Bytes>, end: nat)
    requires labels != [] && IsLabel(labels[0]) && Stands(buf, pos, [|labels[0]|]) && Stands(buf, pos + 1, labels[0])
    requires ReadName(buf, pos + 1 + |labels[0]|) == Some((labels[1..], end))
    ensures ReadName(buf, pos) == Some((labels, end))
  {
    ByteAt(buf, pos, |labels[0]|);
    assert [labels[0]] + labels[1..] == labels;
  }

  lemma TailLabels(labels: seq<Bytes>)
    requires AreLabels(labels) && labels != []
    ensures IsLabel(labels[0]) && AreLabels(labels[1..])
  {
    assert labels[0] in labels && forall m | m in labels[1..] :: m in labels;
  }

  /** And whatever is read was written by an encoder. */
  lemma {:induction false} ReadIsEncoded(buf: Bytes, pos: nat)
    requires ReadName(buf, pos).Some?
    ensures var (labels, end) := ReadName(buf, pos).value;
      AreLabels(labels) && pos < end <= |buf| && buf[pos..end] == EncodeName(labels)
    decreases |buf| - pos
  {
    if buf[pos] != 0 {
      var next := pos + 1 + buf[pos];
      ReadIsEncoded(buf, next);
      var (labels, end) := ReadName(buf, next).value;
      var l := buf[pos + 1..next];
      assert ([l] + labels)[1..] == labels;
      assert buf[pos..end] == [buf[pos]] + l + buf[next..end];
    }
  }

  /** The fields of the header that a query is read from. */
  ghost predicate Asks(buf: Bytes, id: Word, opcode: nat, rd: bool)
  {
    && |buf| >= HEADER && FromU16(buf[0], buf[1]) == id && FromU16(buf[4], buf[5]) == 1
    && buf[2] / 8 % 16 == opcode && (buf[2] % 2 == 1 <==> rd)
  }

  ghost predicate Carries(buf: Bytes, labels: seq<Bytes>, qtype: Word, qclass: Word)
  {
    AreLabels(labels) && Stands(buf, HEADER, EncodeQuestion(labels, qtype, qclass))
  }

  lemma WordAt(buf: Bytes, pos: nat, n: Word)
    requires Stands(buf, pos, U16(n))
    ensures FromU16(buf[pos], buf[pos + 1]) == n
  {
    assert buf[pos] == buf[pos..pos + 2][0] && buf[pos + 1] == buf[pos..pos + 2][1];
  }

  lemma U16At(buf: Bytes, pos: nat)
    requires pos + 2 <= |buf|
    ensures Stands(buf, pos, U16(FromU16(buf[pos], buf[pos + 1])))
  {
  }

  lemma QuestionAt(buf: Bytes, labels: seq<Bytes>, qtype: Word, qclass: Word)
    requires Carries(buf, labels, qtype, qclass)
    ensures var end := HEADER + |EncodeName(labels)|;
      && ReadName(buf, HEADER) == Some((labels, end)) && end + 4 <= |buf|
      && FromU16(buf[end], buf[end + 1]) == qtype && FromU16(buf[end + 2], buf[end + 3]) == qclass
  {
    var name := EncodeName(labels);
    Split(buf, HEADER, name + U16(qtype), U16(qclass));
    Split(buf, HEADER, name, U16(qtype));
    ReadInvertsEncode(buf, HEADER, labels);
    WordAt(buf, HEADER + |name|, qtype);
    WordAt(buf, HEADER + |name| + 2, qclass);
  }

  /** Every well-formed query is read as what it says. */
  lemma ParseInvertsEncode(buf: Bytes, decode: Decoder, id: Word, opcode: nat, rd: bool,
                           labels: seq<Bytes>, qtype: Word, qclass: Word)
    requires Asks(buf, id, opcode, rd) && Carries(buf, labels, qtype, qclass)
    ensures Parse(buf, decode)
         == Some(Query(id, opcode, rd, Dotted(Texts(labels, decode)), qtype, qclass, EncodeQuestion(labels, qtype, qclass)))
  {
    QuestionAt(buf, labels, qtype, qclass);
  }

  /** Nothing else is accepted. */
  lemma ParsedIsEncoded(buf: Bytes, decode: Decoder) returns (labels: seq<Bytes>)
    requires Parse(buf, decode).Some?
    ensures var q := Parse(buf, decode).value;
      && Asks(buf, q.id, q.opcode, q.rd) && Carries(buf, labels, q.qtype, q.qclass)
      && q.opcode < 16 && q.qname == Dotted(Texts(labels, decode))
      && q.questionBytes == EncodeQuestion(labels, q.qtype, q.qclass)
  {
    ReadIsEncoded(buf, HEADER);
    var end := ReadName(buf, HEADER).value.1;
    labels := ReadName(buf, HEADER).value.0;
    var q := Parse(buf, decode).value;
    QuestionStands(buf, labels, end, q.qtype, q.qclass);
  }

  lemma QuestionStands(buf: Bytes, labels: seq<Bytes>, end: nat, qtype: Word, qclass: Word)
    requires AreLabels(labels) && HEADER <= end && end + 4 <= |buf| && buf[HEADER..end] == EncodeName(labels)
    requires qtype == FromU16(buf[end], buf[end + 1]) && qclass == FromU16(buf[end + 2], buf[end + 3])
    ensures Carries(buf, labels, qtype, qclass) && buf[HEADER..end + 4] == EncodeQuestion(labels, qtype, qclass)
  {
    U16At(buf, end);
    U16At(buf, end + 2);
    Joined(buf, HEADER, EncodeName(labels), U16(qtype));
    Joined(buf, HEADER, EncodeName(labels) + U16(qtype), U16(qclass));
  }

  // ----- names -----

  function SplitDots(s: string): seq<string>
  {
    if s == "" then [""]
    else if s[0] == '.' then [""] + SplitDots(s[1..])
    else
      var more := SplitDots(s[1..]);
      if more == [] then [s] else [[s[0]] + more[0]] + more[1..]
  }

  lemma {:induction false} SplitPlain(l: string, rest: string)
    requires '.' !in l && (rest == "" || rest[0] == '.')
    ensures SplitDots(l + rest) == if rest == "" then [l] else [l] + SplitDots(rest[1..])
  {
    if l == "" {
      assert l + rest == rest;
    } else {
      assert (l + rest)[1..] == l[1..] + rest;
      SplitPlain(l[1..], rest);
      assert [l[0]] + l[1..] == l;
    }
  }

  /** Labels without dots can be told apart in the name they are joined to. */
  lemma {:induction false} SplitInvertsDotted(labels: seq<string>)
    requires labels != [] && forall l | l in labels :: '.' !in l
    ensures SplitDots(Dotted(labels)) == labels
  {
    assert labels[0] in labels;
    if |labels| == 1 {
      SplitPlain(labels[0], "");
      assert labels[0] + "" == labels[0];
    } else {
      var rest := "." + Dotted(labels[1..]);
      assert Dotted(labels) == labels[0] + rest && rest[1..] == Dotted(labels[1..]);
      SplitPlain(labels[0], rest);
      SplitInvertsDotted(labels[1..]);
    }
  }

  /** The name asked for comes out, and its labels with it, whenever the decoder
      undoes the encoding of each. */
  lemma NamesRoundTrip(buf: Bytes, decode: Decoder, encode: string -> Bytes, id: Word, opcode: nat, rd: bool,
                       names: seq<string>, qtype: Word, qclass: Word)
    requires names != [] && forall s | s in names :: '.' !in s && decode(encode(s)) == s
    requires Asks(buf, id, opcode, rd)
    requires Carries(buf, seq(|names|, i requires 0 <= i < |names| => encode(names[i])), qtype, qclass)
    ensures Parse(buf, decode).Some? && SplitDots(Parse(buf, decode).value.qname) == names
  {
    var labels := seq(|names|, i requires 0 <= i < |names| => encode(names[i]));
    ParseInvertsEncode(buf, decode, id, opcode, rd, labels, qtype, qclass);
    assert Texts(labels, decode) == names by {
      forall i | 0 <= i < |names| ensures Texts(labels, decode)[i] == names[i] {
        assert names[i] in names;
      }
    }
    SplitInvertsDotted(names);
  }

  // ----- responses, sections 4.1.1 and 4.1.4 -----

  datatype Rcode = NoError | NxDomain | NotImp
  {
    function Code(): Byte
    {
      match this
      case NoError => 0
      case NxDomain => 3
      case NotImp => 4
    }
  }

  /** What a response says, apart from the question it echoes. */
  datatype Response = Response(id: Word, opcode: nat, aa: bool, rd: bool, rcode: Rcode, question: Bytes, answers: seq<Bytes>)

  ghost predicate IsAddress(a: Bytes) { |a| == 4 }

  /** One A record for the name at offset 12. */
  function EncodeAnswer(address: Bytes): Bytes
  {
    [0xC0, 0x0C] + U16(TYPE_A) + U16(CLASS_IN) + [0, 0, 0, ANSWER_TTL] + U16(4) + address
  }

  function Bit(b: bool, weight: nat): nat { if b then weight else 0 }

  function Flags(opcode: nat, aa: bool, rd: bool): Byte
    requires opcode < 16
  {
    128 + 8 * opcode + Bit(aa, 4) + Bit(rd, 1)
  }

  function EncodeHeader(r: Response): Bytes
    requires r.opcode < 16 && |r.answers| <= 1
  {
    U16(r.id) + [Flags(r.opcode, r.aa, r.rd)] + [r.rcode.Code()] + U16(1) + U16(|r.answers|) + U16(0) + U16(0)
  }

  /** What follows the question. */
  function EncodeAnswers(r: Response): Bytes
  {
    if r.answers == [] then [] else EncodeAnswer(r.answers[0])
  }

  function EncodeResponse(r: Response): Bytes
    requires r.opcode < 16 && |r.answers| <= 1
  {
    EncodeHeader(r) + r.question + EncodeAnswers(r)
  }

  /** The answer to a query: authoritative and `NoError` in a zone, even when
      there is no record of the asked type; an opcode other than a standard query
      is not implemented, though its answer goes out all the same. */
  function Respond(q: Query, answer: Option<Bytes>): Response
  {
    Response(q.id, q.opcode, answer.Some?, q.rd,
      if q.opcode != 0 then NotImp else if answer.Some? then NoError else NxDomain,
      q.questionBytes,
      if answer.Some? && q.qtype == TYPE_A && q.qclass == CLASS_IN then [answer.value] else [])
  }

  /** `build_response`. */
  method BuildResponse(query: Query, answer: Option<Bytes>) returns (resp: Bytes)
    requires query.opcode < 16
    ensures resp == EncodeResponse(Respond(query, answer))
  {
    var zoneHit := answer.Some?;
    var answerHit := zoneHit && query.qtype == TYPE_A && query.qclass == CLASS_IN;
    var rcode: Byte := if query.opcode != 0 then 4 else if zoneHit then 0 else 3;
    var flags0: Byte := 128 + query.opcode % 16 * 8 + (if zoneHit then 4 else 0) + (if query.rd then 1 else 0);
    ghost var response := Respond(query, answer);
    assert flags0 == Flags(response.opcode, response.aa, response.rd) && rcode % 16 == response.rcode.Code();
    resp := U16(query.id);
    resp := resp + [flags0];
    resp := resp + [rcode % 16];
    resp := resp + U16(1);
    resp := resp + U16(if answerHit then 1 else 0);
    resp := resp + U16(0);
    resp := resp + U16(0);
    assert resp == EncodeHeader(response);
    resp := resp + query.questionBytes;
    if answerHit {
      var record: Bytes := [0xC0, 0x0C];
      record := record + U16(TYPE_A);
      record := record + U16(CLASS_IN);
      record := record + [0, 0, 0, ANSWER_TTL];
      record := record + U16(4);
      record := record + answer.value;
      resp := resp + record;
    }
  }

  // ----- reading a response as a resolver does -----

  /** A resource record: who owns it, and its fields. The length of the data is what
      RDLENGTH said. */
  datatype Record = Record(owner: seq<Bytes>, rtype: Word, rclass: Word, ttl: nat, data: Bytes)

  datatype Reading = Reading(
    id: Word, isResponse: bool, opcode: nat, aa: bool, tc: bool, rd: bool, ra: bool, rcode: nat,
    labels: seq<Bytes>, qtype: Word, qclass: Word, answers: seq<Record>)

  /** A name that may end in a pointer (section 4.1.4) to one that starts before
      `limit`, and where it ends. */
  function ReadAnyName(buf: Bytes, pos: nat, limit: nat): Option<(seq<Bytes>, nat)>
    decreases limit, |buf| - pos
  {
    if pos >= |buf| then None
    else if buf[pos] == 0 then Some(([], pos + 1))
    else if buf[pos] >= 192 then
      if pos + 1 >= |buf| || FromU16(buf[pos] - 192, buf[pos + 1]) >= limit then None
      else
        var target := FromU16(buf[pos] - 192, buf[pos + 1]);
        match ReadAnyName(buf, target, target)
        case None => None
        case Some((labels, _)) => Some((labels, pos + 2))
    else if buf[pos] >= COMPRESSED || pos + 1 + buf[pos] > |buf| then None
    else
      match ReadAnyName(buf, pos + 1 + buf[pos], limit)
      case None => None
      case Some((labels, end)) => Some(([buf[pos + 1..pos + 1 + buf[pos]]] + labels, end))
  }

  function WordIn(buf: Bytes, pos: nat): Word
    requires pos + 2 <= |buf|
  {
    FromU16(buf[pos], buf[pos + 1])
  }

  /** The fields after a record's name, section 4.1.3. */
  function ReadFields(buf: Bytes, owner: seq<Bytes>, pos: nat): Option<(Record, nat)>
  {
    if pos + 10 > |buf| || pos + 10 + WordIn(buf, pos + 8) > |buf| then None
    else
      var end := pos + 10 + WordIn(buf, pos + 8);
      Some((Record(owner, WordIn(buf, pos), WordIn(buf, pos + 2),
                   65536 * WordIn(buf, pos + 4) + WordIn(buf, pos + 6), buf[pos + 10..end]), end))
  }

  function ReadRecords(buf: Bytes, pos: nat, count: nat): Option<(seq<Record>, nat)>
    decreases count
  {
    if count == 0 then Some(([], pos))
    else
      match ReadAnyName(buf, pos, pos)
      case None => None
      case Some((owner, fields)) =>
        match ReadFields(buf, owner, fields)
        case None => None
        case Some((record, next)) =>
          match ReadRecords(buf, next, count - 1)
          case None => None
          case Some((more, end)) => Some(([record] + more, end))
  }

  /** The id and the two bytes of flags, section 4.1.1. */
  function ReadHeader(id: Word, flags0: Byte, flags1: Byte): Reading
  {
    Reading(id, flags0 / 128 == 1, flags0 / 8 % 16, flags0 / 4 % 2 == 1, flags0 / 2 % 2 == 1, flags0 % 2 == 1,
            flags1 / 128 == 1, flags1 % 16, [], 0, 0, [])
  }

  /** One question, any number of answers and nothing else. */
  function ReadResponse(buf: Bytes): Option<Reading>
  {
    if |buf| < HEADER || WordIn(buf, 4) != 1 || WordIn(buf, 8) != 0 || WordIn(buf, 10) != 0 then None
    else
      match ReadAnyName(buf, HEADER, HEADER)
      case None => None
      case Some((labels, end)) =>
        if end + 4 > |buf| then None
        else
          match ReadRecords(buf, end + 4, WordIn(buf, 6))
          case None => None
          case Some((answers, last)) =>
            if last != |buf| then None
            else Some(ReadHeader(WordIn(buf, 0), buf[2], buf[3]).(
                        labels := labels, qtype := WordIn(buf, end), qclass := WordIn(buf, end + 2), answers := answers))
  }

  /** A name without a pointer is read the same. */
  lemma {:induction false} PlainNames(buf: Bytes, pos: nat, limit: nat)
    requires ReadName(buf, pos).Some?
    ensures ReadAnyName(buf, pos, limit) == ReadName(buf, pos)
    decreases |buf| - pos
  {
    if buf[pos] != 0 {
      PlainNames(buf, pos + 1 + buf[pos], limit);
    }
  }

  ghost predicate Sendable(r: Response, labels: seq<Bytes>, qtype: Word, qclass: Word)
  {
    && r.opcode < 16 && |r.answers| <= 1 && (r.answers != [] ==> IsAddress(r.answers[0]))
    && AreLabels(labels) && r.question == EncodeQuestion(labels, qtype, qclass)
  }

  lemma FlagsRoundTrip(id: Word, opcode: nat, aa: bool, rd: bool, rcode: Rcode)
    requires opcode < 16
    ensures ReadHeader(id, Flags(opcode, aa, rd), rcode.Code())
         == Reading(id, true, opcode, aa, false, rd, false, rcode.Code(), [], 0, 0, [])
    ensures Flags(opcode, aa, rd) / 8 % 16 == opcode && (Flags(opcode, aa, rd) % 2 == 1 <==> rd)
  {
  }

  /** Where the parts of a response stand. */
  lemma ResponseParts(r: Response)
    requires r.opcode < 16 && |r.answers| <= 1
    ensures var buf := EncodeResponse(r);
      && |EncodeHeader(r)| == HEADER && |buf| == HEADER + |r.question| + |EncodeAnswers(r)|
      && Stands(buf, 0, EncodeHeader(r)) && Stands(buf, HEADER, r.question) && Stands(buf, HEADER + |r.question|, EncodeAnswers(r))
  {
    StandsIn(EncodeHeader(r), r.question, EncodeAnswers(r));
  }

  lemma HeaderParts(buf: Bytes, r: Response)
    requires r.opcode < 16 && |r.answers| <= 1 && Stands(buf, 0, EncodeHeader(r)) && |EncodeHeader(r)| == HEADER
    ensures HeaderStands(buf, r)
  {
    var a := U16(r.id);
    var b := a + [Flags(r.opcode, r.aa, r.rd)];
    var c := b + [r.rcode.Code()];
    var d := c + U16(1);
    var e := d + U16(|r.answers|);
    Split(buf, 0, e + U16(0), U16(0));
    Split(buf, 0, e, U16(0));
    Split(buf, 0, d, U16(|r.answers|));
    Split(buf, 0, c, U16(1));
    Split(buf, 0, b, [r.rcode.Code()]);
    Split(buf, 0, a, [Flags(r.opcode, r.aa, r.rd)]);
  }

  ghost predicate HeaderReads(buf: Bytes, r: Response)
    requires r.opcode < 16
  {
    && |buf| >= HEADER && WordIn(buf, 0) == r.id && buf[2] == Flags(r.opcode, r.aa, r.rd) && buf[3] == r.rcode.Code()
    && WordIn(buf, 4) == 1 && WordIn(buf, 6) == |r.answers| && WordIn(buf, 8) == 0 && WordIn(buf, 10) == 0
  }

  /** The fields of a header, one by one. */
  ghost predicate HeaderStands(buf: Bytes, r: Response)
    requires r.opcode < 16 && |r.answers| <= 1
  {
    && Stands(buf, 0, U16(r.id)) && Stands(buf, 2, [Flags(r.opcode, r.aa, r.rd)]) && Stands(buf, 3, [r.rcode.Code()])
    && Stands(buf, 4, U16(1)) && Stands(buf, 6, U16(|r.answers|)) && Stands(buf, 8, U16(0)) && Stands(buf, 10, U16(0))
  }

  lemma HeaderWords(buf: Bytes, r: Response)
    requires r.opcode < 16 && |r.answers| <= 1 && HeaderStands(buf, r)
    ensures HeaderReads(buf, r)
  {
    WordAt(buf, 0, r.id);
    ByteAt(buf, 2, Flags(r.opcode, r.aa, r.rd));
    ByteAt(buf, 3, r.rcode.Code());
    WordAt(buf, 4, 1);
    WordAt(buf, 6, |r.answers|);
    WordAt(buf, 8, 0);
    WordAt(buf, 10, 0);
  }

  lemma HeaderIsRead(r: Response)
    requires r.opcode < 16 && |r.answers| <= 1
    ensures HeaderReads(EncodeResponse(r), r)
  {
    ResponseParts(r);
    HeaderParts(EncodeResponse(r), r);
    HeaderWords(EncodeResponse(r), r);
  }

  lemma ResponseAsks(r: Response)
    requires r.opcode < 16 && |r.answers| <= 1
    ensures Asks(EncodeResponse(r), r.id, r.opcode, r.rd)
  {
    HeaderIsRead(r);
    FlagsRoundTrip(r.id, r.opcode, r.aa, r.rd, r.rcode);
  }

  /** Where the question and the answers start and end. */
  ghost predicate QuestionReads(buf: Bytes, r: Response, labels: seq<Bytes>, qtype: Word, qclass: Word)
  {
    var end := HEADER + |r.question| - 4;
    && |r.question| >= 4 && end + 4 <= |buf|
    && ReadName(buf, HEADER) == Some((labels, end)) && WordIn(buf, end) == qtype && WordIn(buf, end + 2) == qclass
  }

  lemma QuestionIsRead(r: Response, labels: seq<Bytes>, qtype: Word, qclass: Word)
    requires Sendable(r, labels, qtype, qclass)
    ensures QuestionReads(EncodeResponse(r), r, labels, qtype, qclass) && Carries(EncodeResponse(r), labels, qtype, qclass)
  {
    ResponseParts(r);
    QuestionAt(EncodeResponse(r), labels, qtype, qclass);
  }

  lemma AnswerParts(buf: Bytes, pos: nat, address: Bytes)
    requires Stands(buf, pos, EncodeAnswer(address))
    ensures Stands(buf, pos, [0xC0, 0x0C]) && Stands(buf, pos + 2, U16(TYPE_A)) && Stands(buf, pos + 4, U16(CLASS_IN))
    ensures Stands(buf, pos + 6, [0, 0, 0, ANSWER_TTL]) && Stands(buf, pos + 10, U16(4)) && Stands(buf, pos + 12, address)
  {
    var a: Bytes := [0xC0, 0x0C];
    var b := a + U16(TYPE_A);
    var c := b + U16(CLASS_IN);
    var d := c + [0, 0, 0, ANSWER_TTL];
    Split(buf, pos, d + U16(4), address);
    Split(buf, pos, d, U16(4));
    Split(buf, pos, c, [0, 0, 0, ANSWER_TTL]);
    Split(buf, pos, b, U16(CLASS_IN));
    Split(buf, pos, a, U16(TYPE_A));
  }

  lemma TtlAt(buf: Bytes, pos: nat)
    requires Stands(buf, pos, [0, 0, 0, ANSWER_TTL])
    ensures WordIn(buf, pos) == 0 && WordIn(buf, pos + 2) == 5
  {
    var ttl := buf[pos..pos + 4];
    assert ttl[0] == 0 && ttl[1] == 0 && ttl[2] == 0 && ttl[3] == 5;
    assert buf[pos] == ttl[0] && buf[pos + 1] == ttl[1] && buf[pos + 2] == ttl[2] && buf[pos + 3] == ttl[3];
  }

  /** The answer's name is a pointer to the question's. */
  lemma AnswerNameIsRead(buf: Bytes, pos: nat, labels: seq<Bytes>, end: nat)
    requires HEADER < pos && Stands(buf, pos, [0xC0, 0x0C]) && ReadName(buf, HEADER) == Some((labels, end))
    ensures ReadAnyName(buf, pos, pos) == Some((labels, pos + 2))
  {
    assert buf[pos] == buf[pos..pos + 2][0] == 192 && buf[pos + 1] == buf[pos..pos + 2][1] == 12;
    PlainNames(buf, HEADER, HEADER);
  }

  lemma AnswerFieldsAreRead(buf: Bytes, pos: nat, labels: seq<Bytes>, address: Bytes)
    requires Stands(buf, pos, EncodeAnswer(address)) && IsAddress(address)
    ensures ReadFields(buf, labels, pos + 2) == Some((Record(labels, 1, 1, 5, address), pos + 16))
  {
    AnswerParts(buf, pos, address);
    WordAt(buf, pos + 2, TYPE_A);
    WordAt(buf, pos + 4, CLASS_IN);
    TtlAt(buf, pos + 6);
    WordAt(buf, pos + 10, 4);
  }

  /** The answers a resolver finds: an A record of class IN for the name asked for,
      with a TTL of 5 seconds and four bytes of data. */
  function AnswerRecords(r: Response, labels: seq<Bytes>): seq<Record>
  {
    if r.answers == [] then [] else [Record(labels, 1, 1, 5, r.answers[0])]
  }

  lemma AnswersAreRead(r: Response, labels: seq<Bytes>, qtype: Word, qclass: Word)
    requires Sendable(r, labels, qtype, qclass)
    ensures ReadRecords(EncodeResponse(r), HEADER + |r.question|, |r.answers|)
         == Some((AnswerRecords(r, labels), |EncodeResponse(r)|))
    ensures |EncodeResponse(r)| == HEADER + |r.question| + 16 * |r.answers|
  {
    var buf, pos := EncodeResponse(r), HEADER + |r.question|;
    ResponseParts(r);
    if r.answers != [] {
      QuestionIsRead(r, labels, qtype, qclass);
      AnswerParts(buf, pos, r.answers[0]);
      AnswerNameIsRead(buf, pos, labels, pos - 4);
      AnswerFieldsAreRead(buf, pos, labels, r.answers[0]);
      assert ReadRecords(buf, pos + 16, 0) == Some(([], pos + 16));
      assert |buf| == pos + 16 && [Record(labels, 1, 1, 5, r.answers[0])] + [] == AnswerRecords(r, labels);
      assert |r.answers| == 1;
    }
  }

  lemma PartsRead(buf: Bytes, r: Response, labels: seq<Bytes>, qtype: Word, qclass: Word)
    requires r.opcode < 16 && HeaderReads(buf, r) && QuestionReads(buf, r, labels, qtype, qclass)
    requires ReadAnyName(buf, HEADER, HEADER) == ReadName(buf, HEADER)
    requires ReadRecords(buf, HEADER + |r.question|, |r.answers|) == Some((AnswerRecords(r, labels), |buf|))
    ensures ReadResponse(buf) == Some(ReadHeader(r.id, Flags(r.opcode, r.aa, r.rd), r.rcode.Code()).(
                                        labels := labels, qtype := qtype, qclass := qclass, answers := AnswerRecords(r, labels)))
  {
  }

  /** A resolver reads back what was said. */
  lemma ResponsesRoundTrip(r: Response, labels: seq<Bytes>, qtype: Word, qclass: Word)
    requires Sendable(r, labels, qtype, qclass)
    ensures ReadResponse(EncodeResponse(r))
         == Some(Reading(r.id, true, r.opcode, r.aa, false, r.rd, false, r.rcode.Code(), labels, qtype, qclass, AnswerRecords(r, labels)))
  {
    HeaderIsRead(r);
    QuestionIsRead(r, labels, qtype, qclass);
    PlainNames(EncodeResponse(r), HEADER, HEADER);
    AnswersAreRead(r, labels, qtype, qclass);
    PartsRead(EncodeResponse(r), r, labels, qtype, qclass);
    FlagsRoundTrip(r.id, r.opcode, r.aa, r.rd, r.rcode);
  }

  /** The question of `q` asks for `labels`. */
  ghost predicate IsFor(q: Query, labels: seq<Bytes>)
  {
    q.opcode < 16 && AreLabels(labels) && q.questionBytes == EncodeQuestion(labels, q.qtype, q.qclass)
  }

  lemma EchoReadsAsQuery(q: Query, decode: Decoder, answer: Option<Bytes>, labels: seq<Bytes>)
    requires IsFor(q, labels) && q.qname == Dotted(Texts(labels, decode)) && (answer.Some? ==> IsAddress(answer.value))
    ensures Parse(EncodeResponse(Respond(q, answer)), decode) == Some(q)
  {
    var r := Respond(q, answer);
    ResponseAsks(r);
    QuestionIsRead(r, labels, q.qtype, q.qclass);
    ParseInvertsEncode(EncodeResponse(r), decode, q.id, q.opcode, q.rd, labels, q.qtype, q.qclass);
  }

  lemma EchoReadsAsResponse(q: Query, answer: Option<Bytes>, labels: seq<Bytes>)
    requires IsFor(q, labels) && (answer.Some? ==> IsAddress(answer.value))
    ensures var resp := EncodeResponse(Respond(q, answer));
      && ReadResponse(resp) == Some(Reading(q.id, true, q.opcode, answer.Some?, false, q.rd, false,
           if q.opcode != 0 then 4 else if answer.Some? then 0 else 3, labels, q.qtype, q.qclass,
           if answer.Some? && q.qtype == 1 && q.qclass == 1 then [Record(labels, 1, 1, 5, answer.value)] else []))
      && |resp| == HEADER + |q.questionBytes| + 16 * WordIn(resp, 6)
  {
    var r := Respond(q, answer);
    HeaderIsRead(r);
    AnswersAreRead(r, labels, q.qtype, q.qclass);
    ResponsesRoundTrip(r, labels, q.qtype, q.qclass);
  }

  /** The response to an accepted query, read as a query again, is the query. A
      resolver reads the same id, opcode and RD bit, name, type and class, AA and
      NOERROR or NXDOMAIN as the zone is known or not, NOTIMP for any other opcode,
      and the address as an A record of class IN for the name asked for, exactly if
      there is one and that was the type and class asked for. */
  lemma ResponseEchoesQuery(buf: Bytes, decode: Decoder, answer: Option<Bytes>) returns (labels: seq<Bytes>)
    requires Parse(buf, decode).Some? && (answer.Some? ==> IsAddress(answer.value))
    ensures var q := Parse(buf, decode).value;
      q.opcode < 16 && Carries(buf, labels, q.qtype, q.qclass) && q.qname == Dotted(Texts(labels, decode))
      && var resp := EncodeResponse(Respond(q, answer));
         && Parse(resp, decode) == Some(q)
         && ReadResponse(resp) == Some(Reading(q.id, true, q.opcode, answer.Some?, false, q.rd, false,
              if q.opcode != 0 then 4 else if answer.Some? then 0 else 3, labels, q.qtype, q.qclass,
              if answer.Some? && q.qtype == 1 && q.qclass == 1 then [Record(labels, 1, 1, 5, answer.value)] else []))
         && |resp| == HEADER + |q.questionBytes| + 16 * WordIn(resp, 6)
  {
    labels := ParsedIsEncoded(buf, decode);
    EchoReadsAsQuery(Parse(buf, decode).value, decode, answer, labels);
    EchoReadsAsResponse(Parse(buf, decode).value, answer, labels);
  }
}
