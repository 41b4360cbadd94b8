// The encodings behind an agent's account: the grant in its fixed layout, the
// action, what is signed for an action, and the report of a payment.
module Agent {
  import opened Encoding
  import opened Hashing
  import opened Layout

  const VERSION: Byte := 1
  const GRANT_LEN: nat := 322

  /** One agent's authority on one chain. */
  datatype Grant = Grant(
    chain: Word, account: Word, agent: Word,
    termsVersion: nat, seqNo: nat, notBeforeMs: nat, notAfterMs: nat,
    asset: Word, budget: nat, perActionMax: nat, cosignAbove: nat,
    keysRoot: Word, targetsRoot: Word, payloadHash: Word, relayFeeMax: nat, void: bool)

  /** The integers fit the widths the source's types give them. */
  predicate GrantFits(g: Grant) {
    && g.termsVersion < U64 && g.seqNo < U64 && g.notBeforeMs < U64 && g.notAfterMs < U64
    && g.budget < U128 && g.perActionMax < U128 && g.cosignAbove < U128 && g.relayFeeMax < U128
  }

  predicate IsExact(g: Grant) { g.payloadHash != ZERO }

  function GrantWidths(): seq<nat> {
    [1, 32, 32, 32, 8, 8, 8, 8, 32, 16, 16, 16, 32, 32, 32, 16, 1]
  }

  function GrantFields(g: Grant): seq<Bytes> {
    [[VERSION], g.chain, g.account, g.agent, BE(8, g.termsVersion), BE(8, g.seqNo), BE(8, g.notBeforeMs),
     BE(8, g.notAfterMs), g.asset, BE(16, g.budget), BE(16, g.perActionMax), BE(16, g.cosignAbove),
     g.keysRoot, g.targetsRoot, g.payloadHash, BE(16, g.relayFeeMax), [if g.void then 1 else 0]]
  }

  function GrantOf(f: seq<Bytes>): Option<Grant>
    requires Shaped(GrantWidths(), f)
  {
    if f[0][0] != VERSION || f[16][0] > 1 then None
    else Some(Grant(f[1], f[2], f[3], FromBE(f[4]), FromBE(f[5]), FromBE(f[6]), FromBE(f[7]), f[8],
                    FromBE(f[9]), FromBE(f[10]), FromBE(f[11]), f[12], f[13], f[14], FromBE(f[15]), f[16][0] == 1))
  }

  lemma GrantWidth()
    ensures Sum(GrantWidths()) == GRANT_LEN
  {
    var a, b, c, d := [1, 32, 32, 32], [8, 8, 8, 8], [32, 16, 16, 16], [32, 32, 32, 16];
    assert GrantWidths() == a + (b + (c + (d + [1])));
    SumAppend(a, b + (c + (d + [1])));
    SumAppend(b, c + (d + [1]));
    SumAppend(c, d + [1]);
    SumAppend(d, [1]);
    SumOfFour(1, 32, 32, 32);
    SumOfFour(8, 8, 8, 8);
    SumOfFour(32, 16, 16, 16);
    SumOfFour(32, 32, 32, 16);
  }

  function EncodeGrant(g: Grant): Bytes { Join(GrantFields(g)) }

  function DecodeGrant(b: Bytes): Option<Grant> {
    GrantWidth();
    if |b| != GRANT_LEN then None else GrantOf(Fields(GrantWidths(), b))
  }

  lemma GrantShape(g: Grant)
    ensures Shaped(GrantWidths(), GrantFields(g))
  {
  }

  lemma GrantOfFields(g: Grant)
    requires GrantFits(g) && Shaped(GrantWidths(), GrantFields(g))
    ensures GrantOf(GrantFields(g)) == Some(g)
  {
    Widths();
    BERoundTrip(8, g.termsVersion);
    BERoundTrip(8, g.seqNo);
    BERoundTrip(8, g.notBeforeMs);
    BERoundTrip(8, g.notAfterMs);
    BERoundTrip(16, g.budget);
    BERoundTrip(16, g.perActionMax);
    BERoundTrip(16, g.cosignAbove);
    BERoundTrip(16, g.relayFeeMax);
  }

  lemma FieldsOfGrant(f: seq<Bytes>)
    requires Shaped(GrantWidths(), f) && GrantOf(f).Some?
    ensures GrantFields(GrantOf(f).value) == f && GrantFits(GrantOf(f).value)
  {
    Widths();
    FromBERoundTrip(f[4]);
    FromBERoundTrip(f[5]);
    FromBERoundTrip(f[6]);
    FromBERoundTrip(f[7]);
    FromBERoundTrip(f[9]);
    FromBERoundTrip(f[10]);
    FromBERoundTrip(f[11]);
    FromBERoundTrip(f[15]);
    assert f[0] == [VERSION] && (f[16] == [0] || f[16] == [1]);
  }

  /** Every grant is read back from its encoding. */
  lemma GrantDecodeEncode(g: Grant)
    requires GrantFits(g)
    ensures DecodeGrant(EncodeGrant(g)) == Some(g)
  {
    GrantWidth();
    GrantShape(g);
    FieldsOfJoin(GrantWidths(), GrantFields(g));
    GrantOfFields(g);
  }

  /** The only bytes that decode to a grant are its encoding. */
  lemma GrantEncodeDecode(b: Bytes)
    requires DecodeGrant(b).Some?
    ensures EncodeGrant(DecodeGrant(b).value) == b && GrantFits(DecodeGrant(b).value)
  {
    GrantWidth();
    FieldsOfGrant(Fields(GrantWidths(), b));
    JoinOfFields(GrantWidths(), b);
  }

  /** The decoder itself, reading with a cursor. */
  method ReadGrant(b: Bytes) returns (r: Option<Grant>)
    ensures r == DecodeGrant(b)
  {
    if |b| != GRANT_LEN { return None; }
    GrantWidth();
    var f := ReadFields(GrantWidths(), b);
    r := GrantOf(f);
  }

  // ---- Actions ----

  datatype Action = Action(target: Bytes, selector: Bytes, amount: nat, refund: nat, data: Bytes)

  predicate ActionFits(a: Action) {
    |a.target| < 0x1_0000 && |a.selector| < 0x1_0000 && a.amount < U128 && a.refund < U128 && |a.data| < U32
  }

  /** `x` after its length in `k` big-endian bytes. */
  function Prefixed(k: nat, x: Bytes): Bytes { BE(k, |x|) + x }

  function EncodeAction(a: Action): Bytes {
    Prefixed(2, a.target) + (Prefixed(2, a.selector) + (BE(16, a.amount) + (BE(16, a.refund) + Prefixed(4, a.data))))
  }

  /** A length-prefixed string and what follows it. */
  function TakePrefixed(k: nat, b: Bytes): Option<(Bytes, Bytes)> {
    if |b| < k then None else
    var n := FromBE(b[..k]);
    if |b| < k + n then None else Some((b[k..k + n], b[k + n..]))
  }

  function DecodeAction(b: Bytes): Option<Action> {
    match TakePrefixed(2, b)
    case None => None
    case Some((target, r1)) =>
      match TakePrefixed(2, r1)
      case None => None
      case Some((selector, r2)) =>
        if |r2| < 32 then None else
        match TakePrefixed(4, r2[32..])
        case None => None
        case Some((data, r3)) =>
          if r3 != [] then None
          else Some(Action(target, selector, FromBE(r2[..16]), FromBE(r2[16..32]), data))
  }

  lemma TakePrefixedOf(k: nat, x: Bytes, rest: Bytes)
    requires |x| < Pow256(k)
    ensures TakePrefixed(k, Prefixed(k, x) + rest) == Some((x, rest))
  {
    var b := Prefixed(k, x) + rest;
    BERoundTrip(k, |x|);
    assert b[..k] == BE(k, |x|);
    assert b[k..k + |x|] == x && b[k + |x|..] == rest;
  }

  lemma PrefixedOfTake(k: nat, b: Bytes)
    requires TakePrefixed(k, b).Some?
    ensures var p := TakePrefixed(k, b).value; b == Prefixed(k, p.0) + p.1 && |p.0| < Pow256(k)
  {
    var n := FromBE(b[..k]);
    FromBERoundTrip(b[..k]);
    Cut(b, k, k + n);
    var x := b[k..k + n];
    assert |x| == n;
    assert Prefixed(k, x) == b[..k] + x;
  }

  /** Every action is read back from its encoding. */
  lemma ActionDecodeEncode(a: Action)
    requires ActionFits(a)
    ensures DecodeAction(EncodeAction(a)) == Some(a)
  {
    Widths();
    var tail := BE(16, a.amount) + (BE(16, a.refund) + Prefixed(4, a.data));
    TakePrefixedOf(2, a.target, Prefixed(2, a.selector) + tail);
    TakePrefixedOf(2, a.selector, tail);
    assert tail[..16] == BE(16, a.amount) && tail[16..32] == BE(16, a.refund) && tail[32..] == Prefixed(4, a.data);
    BERoundTrip(16, a.amount);
    BERoundTrip(16, a.refund);
    TakePrefixedOf(4, a.data, []);
    assert Prefixed(4, a.data) + [] == Prefixed(4, a.data);
  }

  /** The only bytes that decode to an action are its encoding. */
  lemma ActionEncodeDecode(b: Bytes)
    requires DecodeAction(b).Some?
    ensures EncodeAction(DecodeAction(b).value) == b && ActionFits(DecodeAction(b).value)
  {
    Widths();
    var (target, r1) := TakePrefixed(2, b).value;
    var (selector, r2) := TakePrefixed(2, r1).value;
    PrefixedOfTake(2, b);
    PrefixedOfTake(2, r1);
    AmountsAndData(r2);
    var a := DecodeAction(b).value;
    assert b == Prefixed(2, target) + (Prefixed(2, selector) + r2);
    assert a.target == target && a.selector == selector;
  }

  /** What is left after target and selector is the amounts and the data, in full. */
  lemma AmountsAndData(r: Bytes)
    requires |r| >= 32 && TakePrefixed(4, r[32..]).Some? && TakePrefixed(4, r[32..]).value.1 == []
    ensures var data := TakePrefixed(4, r[32..]).value.0;
      && r == BE(16, FromBE(r[..16])) + (BE(16, FromBE(r[16..32])) + Prefixed(4, data))
      && FromBE(r[..16]) < U128 && FromBE(r[16..32]) < U128 && |data| < U32
  {
    Widths();
    PrefixedOfTake(4, r[32..]);
    FromBERoundTrip(r[..16]);
    FromBERoundTrip(r[16..32]);
    assert r == r[..16] + (r[16..32] + r[32..]);
    var data := TakePrefixed(4, r[32..]).value.0;
    assert Prefixed(4, data) + [] == Prefixed(4, data);
  }

  /** The cursor's step over a length-prefixed string. */
  method StepPrefixed(b: Bytes, at: nat, k: nat) returns (ok: bool, x: Bytes, next: nat)
    requires at <= |b|
    ensures ok <==> TakePrefixed(k, b[at..]).Some?
    ensures ok ==> next <= |b| && TakePrefixed(k, b[at..]) == Some((x, b[next..]))
  {
    ghost var rest := b[at..];
    ok, x, next := false, [], at;
    if |b| < at + k { return; }
    var n := FromBE(b[at..at + k]);
    assert rest[..k] == b[at..at + k];
    if |b| < at + k + n { return; }
    assert rest[k..k + n] == b[at + k..at + k + n] && rest[k + n..] == b[at + k + n..];
    ok, x, next := true, b[at + k..at + k + n], at + k + n;
  }

  /** The decoder itself: one cursor over the bytes, and nothing left after. */
  method ReadAction(b: Bytes) returns (r: Option<Action>)
    ensures r == DecodeAction(b)
  {
    assert b[0..] == b;
    var ok, target, at := StepPrefixed(b, 0, 2);
    if !ok { return None; }
    var selector, data;
    ok, selector, at := StepPrefixed(b, at, 2);
    if !ok || |b| < at + 32 { return None; }
    ghost var rest := b[at..];
    var amount, refund := FromBE(b[at..at + 16]), FromBE(b[at + 16..at + 32]);
    assert rest[..16] == b[at..at + 16] && rest[16..32] == b[at + 16..at + 32] && rest[32..] == b[at + 32..];
    ok, data, at := StepPrefixed(b, at + 32, 4);
    if !ok || at != |b| { return None; }
    r := Some(Action(target, selector, amount, refund, data));
  }

  // ---- Digests and reports ----

  const ACT_DOMAIN: Bytes := Ascii("tenzro/agent-act/v1")

  /** What serving nodes sign, before hashing: action number `nonce` under grant `seqNo`. */
  function ActBytes(domain: Bytes, g: Grant, nonce: nat, action: Bytes): Bytes {
    domain + g.chain + g.account + BE(8, g.seqNo) + BE(8, nonce) + action
  }

  function ActDigest(h: Hash, g: Grant, nonce: nat, action: Bytes): Word {
    h(ActBytes(ACT_DOMAIN, g, nonce, action))
  }

  /** A digest preimage names its chain, account, grant, number and action. */
  lemma ActBytesInjective(domain: Bytes, g: Grant, n: nat, a: Bytes, g': Grant, n': nat, a': Bytes)
    requires GrantFits(g) && GrantFits(g') && n < U64 && n' < U64
    requires ActBytes(domain, g, n, a) == ActBytes(domain, g', n', a')
    ensures g.chain == g'.chain && g.account == g'.account && g.seqNo == g'.seqNo && n == n' && a == a'
  {
    Widths();
    var c, c' := domain + g.chain + g.account, domain + g'.chain + g'.account;
    SplitEqual(c + BE(8, g.seqNo) + BE(8, n), a, c' + BE(8, g'.seqNo) + BE(8, n'), a');
    SplitEqual(c + BE(8, g.seqNo), BE(8, n), c' + BE(8, g'.seqNo), BE(8, n'));
    SplitEqual(c, BE(8, g.seqNo), c', BE(8, g'.seqNo));
    SplitEqual(domain + g.chain, g.account, domain + g'.chain, g'.account);
    SplitEqual(domain, g.chain, domain, g'.chain);
    BEInjective(8, n, n');
    BEInjective(8, g.seqNo, g'.seqNo);
  }

  const PAY_DATA_LEN: nat := 104

  function ReportWidths(): seq<nat> { [1, 32, 32, 32, 8, 8, 104, 16] }

  function ReportFields(g: Grant, nonce: nat, data: Bytes, amount: nat): seq<Bytes> {
    [[4], g.chain, g.account, g.agent, BE(8, g.seqNo), BE(8, nonce), data, BE(16, amount)]
  }

  /** The report of a paying action, in the layout Tenzro records payments from. */
  function PaidReport(g: Grant, nonce: nat, data: Bytes, amount: nat): Option<Bytes> {
    if |data| != PAY_DATA_LEN then None else Some(Join(ReportFields(g, nonce, data, amount)))
  }

  /** A report names the payment: two payments with one report are one payment. */
  lemma ReportsDistinct(g: Grant, n: nat, d: Bytes, a: nat, g': Grant, n': nat, d': Bytes, a': nat)
    requires GrantFits(g) && GrantFits(g') && n < U64 && n' < U64 && a < U128 && a' < U128
    requires PaidReport(g, n, d, a).Some? && PaidReport(g, n, d, a) == PaidReport(g', n', d', a')
    ensures g.chain == g'.chain && g.account == g'.account && g.agent == g'.agent && g.seqNo == g'.seqNo
    ensures n == n' && d == d' && a == a'
  {
    Widths();
    var f, f' := ReportFields(g, n, d, a), ReportFields(g', n', d', a');
    JoinInjective(ReportWidths(), f, f');
    assert f[4] == f'[4] && f[5] == f'[5] && f[6] == f'[6] && f[7] == f'[7];
    assert f[1] == f'[1] && f[2] == f'[2] && f[3] == f'[3];
    BEInjective(8, g.seqNo, g'.seqNo);
    BEInjective(8, n, n');
    BEInjective(16, a, a');
  }

  /** Where the report's fields are: what Tenzro reads it by. */
  lemma ReportLayout(g: Grant, n: nat, d: Bytes, a: nat, r: Bytes)
    requires g.seqNo < U64 && n < U64 && a < U128 && PaidReport(g, n, d, a) == Some(r)
    ensures |r| == 233 && r[0] == 4 && r[1..33] == g.chain && r[33..65] == g.account && r[65..97] == g.agent
    ensures FromBE(r[97..105]) == g.seqNo && FromBE(r[105..113]) == n && r[113..217] == d && FromBE(r[217..]) == a
  {
    var f := ReportFields(g, n, d, a);
    var tail := f[4] + (f[5] + (f[6] + f[7]));
    var head := f[0] + (f[1] + (f[2] + f[3]));
    JoinFours(f);
    assert r == head + tail;
    assert |head| == 97 && |tail| == 136;
    assert r[0] == head[0] && r[1..33] == head[1..33] && r[33..65] == head[33..65] && r[65..97] == head[65..97];
    assert head[1..33] == f[1] && head[33..65] == f[2] && head[65..97] == f[3];
    assert r[97..105] == tail[..8] && r[105..113] == tail[8..16] && r[113..217] == tail[16..120] && r[217..] == tail[120..];
    assert tail[..8] == f[4] && tail[8..16] == f[5] && tail[16..120] == f[6] && tail[120..] == f[7];
    Widths();
    BERoundTrip(8, g.seqNo);
    BERoundTrip(8, n);
    BERoundTrip(16, a);
  }

  lemma JoinFours(f: seq<Bytes>)
    requires |f| == 8
    ensures Join(f) == (f[0] + (f[1] + (f[2] + f[3]))) + (f[4] + (f[5] + (f[6] + f[7])))
  {
    JoinEight(f);
    var tail := f[4] + (f[5] + (f[6] + f[7]));
    assert f[3] + tail == f[3] + tail;
    assert f[2] + (f[3] + tail) == (f[2] + f[3]) + tail;
    assert f[1] + ((f[2] + f[3]) + tail) == (f[1] + (f[2] + f[3])) + tail;
  }
}
