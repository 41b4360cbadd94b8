// What crosses the bridge: the transfer record, and the two messages a
// committee signs.
module BridgeMessages {
  import opened Encoding
  import opened Hashing
  import opened Layout
  import opened Quorum

  const OUTBOUND: Bytes := Ascii("tenzro/bridge/route-outbound")
  const COMMITTEE: Bytes := Ascii("tenzro/bridge/route-committee")
  const RECORD_LEN: nat := 168

  datatype Record = Record(sequence: nat, source: nat, dest: nat, sender: Word, token: Word, endpoint: Word,
                           recipient: Word, amount: nat)

  predicate RecordFits(r: Record) {
    r.sequence < U64 && r.source < U64 && r.dest < U64 && r.amount < U128
  }

  function RecordFields(r: Record): seq<Bytes> {
    [BE(8, r.sequence), BE(8, r.source), BE(8, r.dest), r.sender, r.token, r.endpoint, r.recipient, BE(16, r.amount)]
  }

  function RecordWidths(): seq<nat> { [8, 8, 8, 32, 32, 32, 32, 16] }

  function EncodeRecord(r: Record): Bytes { Join(RecordFields(r)) }

  /** A record read at the offsets the bridge uses. */
  function DecodeRecord(b: Bytes): Option<Record> {
    if |b| != RECORD_LEN then None else
    Some(Record(FromBE(b[0..8]), FromBE(b[8..16]), FromBE(b[16..24]), b[24..56], b[56..88], b[88..120], b[120..152],
                FromBE(b[152..168])))
  }

  lemma RecordWidth()
    ensures Sum(RecordWidths()) == RECORD_LEN
  {
    var a, b := [8, 8, 8, 32], [32, 32, 32, 16];
    SumAppend(a, b);
    SumOfFour(8, 8, 8, 32);
    SumOfFour(32, 32, 32, 16);
    assert RecordWidths() == a + b;
  }

  lemma Eight(b: Bytes, f: seq<Bytes>)
    requires |b| == RECORD_LEN && |f| == 8
    requires f[0] == b[0..8] && f[1] == b[8..16] && f[2] == b[16..24] && f[3] == b[24..56]
    requires f[4] == b[56..88] && f[5] == b[88..120] && f[6] == b[120..152] && f[7] == b[152..168]
    ensures Join(f) == b
  {
    JoinEight(f);
    assert f[6] + f[7] == b[120..];
    assert f[5] + b[120..] == b[88..];
    assert f[4] + b[88..] == b[56..];
    assert f[3] + b[56..] == b[24..];
    assert f[2] + b[24..] == b[16..];
    assert f[1] + b[16..] == b[8..];
  }

  /** The fields in the order they are appended are the ones at those offsets. */
  lemma FieldOffsets(b: Bytes)
    requires |b| == RECORD_LEN
    ensures Sum(RecordWidths()) == RECORD_LEN
    ensures Fields(RecordWidths(), b) ==
      [b[0..8], b[8..16], b[16..24], b[24..56], b[56..88], b[88..120], b[120..152], b[152..168]]
  {
    RecordWidth();
    var fs := [b[0..8], b[8..16], b[16..24], b[24..56], b[56..88], b[88..120], b[120..152], b[152..168]];
    Eight(b, fs);
    FieldsOfJoin(RecordWidths(), fs);
  }

  /** A record is read back field for field. */
  lemma RecordDecodeEncode(r: Record)
    requires RecordFits(r)
    ensures DecodeRecord(EncodeRecord(r)) == Some(r)
  {
    Widths();
    var b, f := EncodeRecord(r), RecordFields(r);
    JoinLength(RecordWidths(), f);
    RecordWidth();
    FieldOffsets(b);
    FieldsOfJoin(RecordWidths(), f);
    assert b[0..8] == f[0] && b[8..16] == f[1] && b[16..24] == f[2] && b[152..168] == f[7];
    assert b[24..56] == f[3] && b[56..88] == f[4] && b[88..120] == f[5] && b[120..152] == f[6];
    BERoundTrip(8, r.sequence);
    BERoundTrip(8, r.source);
    BERoundTrip(8, r.dest);
    BERoundTrip(16, r.amount);
  }

  /** And nothing else reads as that record. */
  lemma RecordEncodeDecode(b: Bytes)
    requires DecodeRecord(b).Some?
    ensures RecordFits(DecodeRecord(b).value) && EncodeRecord(DecodeRecord(b).value) == b
  {
    Widths();
    FieldOffsets(b);
    JoinOfFields(RecordWidths(), b);
    FromBERoundTrip(b[0..8]);
    FromBERoundTrip(b[8..16]);
    FromBERoundTrip(b[16..24]);
    FromBERoundTrip(b[152..168]);
    assert RecordFields(DecodeRecord(b).value) == Fields(RecordWidths(), b);
  }

  // ---- What a committee signs ----

  /** Which route of which chain: part of every signed message. */
  datatype Route = Route(chainId: nat, routeKey: Bytes)

  predicate RouteFits(r: Route) { r.chainId < U64 && |r.routeKey| < U64 }

  /** A committee to hand over to. */
  datatype Handover = Handover(setIndex: nat, committee: seq<Member>, threshold: nat, expiresAt: nat)

  predicate HandoverFits(o: Handover) {
    o.setIndex < U32 && |o.committee| < U32 && o.threshold < U32 && o.expiresAt < U64
  }

  function Members(c: seq<Member>): (b: Bytes)
    ensures |b| == 20 * |c|
  {
    if c == [] then [] else c[0] + Members(c[1..])
  }

  function Headed(domain: Bytes, r: Route, body: Bytes): Bytes {
    domain + (BE(8, r.chainId) + (BE(8, |r.routeKey|) + (r.routeKey + body)))
  }

  function OutboundBytes(r: Route, record: Bytes): Bytes { Headed(OUTBOUND, r, record) }

  function HandoverBody(o: Handover): Bytes {
    BE(4, o.setIndex) + (BE(4, |o.committee|) + (Members(o.committee) + (BE(4, o.threshold) + BE(8, o.expiresAt))))
  }

  function HandoverBytes(r: Route, o: Handover): Bytes { Headed(COMMITTEE, r, HandoverBody(o)) }

  lemma HeadedInjective(domain: Bytes, r: Route, body: Bytes, r': Route, body': Bytes)
    requires RouteFits(r) && RouteFits(r') && Headed(domain, r, body) == Headed(domain, r', body')
    ensures r == r' && body == body'
  {
    Widths();
    var k, k' := BE(8, |r.routeKey|) + (r.routeKey + body), BE(8, |r'.routeKey|) + (r'.routeKey + body');
    SplitEqual(domain, BE(8, r.chainId) + k, domain, BE(8, r'.chainId) + k');
    SplitEqual(BE(8, r.chainId), k, BE(8, r'.chainId), k');
    BEInjective(8, r.chainId, r'.chainId);
    PrefixedSplit(8, |r.routeKey|, r.routeKey, body, |r'.routeKey|, r'.routeKey, body');
  }

  lemma {:induction false} MembersInjective(c: seq<Member>, c': seq<Member>)
    requires Members(c) == Members(c')
    ensures c == c'
  {
    if c != [] {
      SplitEqual(c[0], Members(c[1..]), c'[0], Members(c'[1..]));
      MembersInjective(c[1..], c'[1..]);
      assert c == [c[0]] + c[1..] && c' == [c'[0]] + c'[1..];
    }
  }

  lemma HandoverBodyInjective(o: Handover, o': Handover)
    requires HandoverFits(o) && HandoverFits(o') && HandoverBody(o) == HandoverBody(o')
    ensures o == o'
  {
    Widths();
    var e, e' := BE(4, o.threshold) + BE(8, o.expiresAt), BE(4, o'.threshold) + BE(8, o'.expiresAt);
    var m, m' := Members(o.committee) + e, Members(o'.committee) + e';
    SplitEqual(BE(4, o.setIndex), BE(4, |o.committee|) + m, BE(4, o'.setIndex), BE(4, |o'.committee|) + m');
    SplitEqual(BE(4, |o.committee|), m, BE(4, |o'.committee|), m');
    BEInjective(4, |o.committee|, |o'.committee|);
    SplitEqual(Members(o.committee), e, Members(o'.committee), e');
    SplitEqual(BE(4, o.threshold), BE(8, o.expiresAt), BE(4, o'.threshold), BE(8, o'.expiresAt));
    MembersInjective(o.committee, o'.committee);
    BEInjective(4, o.setIndex, o'.setIndex);
    BEInjective(4, o.threshold, o'.threshold);
    BEInjective(8, o.expiresAt, o'.expiresAt);
  }

  /** One signed message carries one record of one route. */
  lemma OutboundInjective(r: Route, record: Bytes, r': Route, record': Bytes)
    requires RouteFits(r) && RouteFits(r') && OutboundBytes(r, record) == OutboundBytes(r', record')
    ensures r == r' && record == record'
  {
    HeadedInjective(OUTBOUND, r, record, r', record');
  }

  /** One signed handover names one committee of one route. */
  lemma HandoverInjective(r: Route, o: Handover, r': Route, o': Handover)
    requires RouteFits(r) && RouteFits(r') && HandoverFits(o) && HandoverFits(o')
    requires HandoverBytes(r, o) == HandoverBytes(r', o')
    ensures r == r' && o == o'
  {
    HeadedInjective(COMMITTEE, r, HandoverBody(o), r', HandoverBody(o'));
    HandoverBodyInjective(o, o');
  }

  /** A record's message is never a handover's. */
  lemma DomainsApart(r: Route, record: Bytes, r': Route, o: Handover)
    ensures OutboundBytes(r, record) != HandoverBytes(r', o)
  {
    var x, y := OutboundBytes(r, record), HandoverBytes(r', o);
    AsciiAt("tenzro/bridge/route-outbound", 20);
    AsciiAt("tenzro/bridge/route-committee", 20);
    assert x[20] == OUTBOUND[20] && y[20] == COMMITTEE[20];
  }

  /** So no digest stands for two messages, unless two of them collide. */
  lemma DigestNamesMessage(h: Hash, r: Route, a: Bytes, o: Handover, r': Route, b: Bytes, o': Handover, xs: set<Bytes>)
    requires RouteFits(r) && RouteFits(r') && HandoverFits(o) && HandoverFits(o')
    requires OutboundBytes(r, a) in xs && OutboundBytes(r', b) in xs
    requires HandoverBytes(r, o) in xs && HandoverBytes(r', o') in xs
    ensures h(OutboundBytes(r, a)) == h(OutboundBytes(r', b)) ==> (r == r' && a == b) || Collides(h, xs)
    ensures h(HandoverBytes(r, o)) == h(HandoverBytes(r', o')) ==> (r == r' && o == o') || Collides(h, xs)
    ensures h(OutboundBytes(r, a)) == h(HandoverBytes(r', o')) ==> Collides(h, xs)
  {
    DomainsApart(r, a, r', o');
    if HandoverBytes(r, o) == HandoverBytes(r', o') { HandoverInjective(r, o, r', o'); }
    if OutboundBytes(r, a) == OutboundBytes(r', b) { OutboundInjective(r, a, r', b); }
  }
}
