// Tenzro finality as other chains follow it: a client holds the committee root
// of each epoch it was handed, accepts the checkpoints proven under them, and
// never takes one twice.
module Finality {
  import opened Encoding
  import opened Hashing
  import opened StateProof

  datatype Error =
    | MalformedSeal | WrongSelector | BadPoint | InvalidProof
    | MalformedJournal | WrongChain | UnknownCommittee | AlreadyFinal
    | EpochOverflow // the last epoch number has no successor: the call aborts

  /** A proven checkpoint: where it is in the chain, what it commits to, and whose signatures made it final. */
  datatype Journal = Journal(
    chainId: nat, genesisHash: Word, epoch: nat, committeeRoot: Word, index: nat, checkpointDigest: Word,
    lastHeight: nat, stateHeight: nat, stateRoot: Word, blocksRoot: Word, statementRoot: Word,
    nextCommitteeRoot: Word, timestampMs: nat)

  predicate JournalFits(j: Journal) {
    && j.chainId < U64 && j.epoch < U64 && j.index < U64 && j.lastHeight < U64 && j.stateHeight < U64
    && j.timestampMs < U64
  }

  // ---- The journal's thirteen words ----

  const JOURNAL_LEN: nat := 416
  const JOURNAL_WORDS: nat := 13

  /** The 24 zero bytes before a right-aligned integer. */
  function Pad(): (z: Bytes)
    ensures |z| == 24
  {
    Zeros(WORD_LEN - 8)
  }

  function IntWord(v: nat): Word { Pad() + BE(8, v) }

  function WordInt(w: Word): Option<nat> {
    if w[..24] != Pad() then None else Some(FromBE(w[24..]))
  }

  lemma IntRoundTrip(v: nat)
    requires v < U64
    ensures WordInt(IntWord(v)) == Some(v)
  {
    Widths();
    BERoundTrip(8, v);
    assert IntWord(v)[..24] == Pad() && IntWord(v)[24..] == BE(8, v);
  }

  lemma IntCanonical(w: Word)
    requires WordInt(w).Some?
    ensures IntWord(WordInt(w).value) == w && WordInt(w).value < U64
  {
    Widths();
    FromBERoundTrip(w[24..]);
  }

  function JournalWords(j: Journal): (ws: seq<Word>)
    ensures |ws| == JOURNAL_WORDS
  {
    [IntWord(j.chainId), j.genesisHash, IntWord(j.epoch), j.committeeRoot, IntWord(j.index), j.checkpointDigest,
     IntWord(j.lastHeight), IntWord(j.stateHeight), j.stateRoot, j.blocksRoot, j.statementRoot,
     j.nextCommitteeRoot, IntWord(j.timestampMs)]
  }

  function JournalOf(w: seq<Word>): Option<Journal>
    requires |w| == JOURNAL_WORDS
  {
    var chainId, epoch, index := WordInt(w[0]), WordInt(w[2]), WordInt(w[4]);
    var last, height, time := WordInt(w[6]), WordInt(w[7]), WordInt(w[12]);
    if chainId.None? || epoch.None? || index.None? || last.None? || height.None? || time.None? then None
    else Some(Journal(chainId.value, w[1], epoch.value, w[3], index.value, w[5], last.value, height.value,
                      w[8], w[9], w[10], w[11], time.value))
  }

  function EncodeJournal(j: Journal): Bytes { Flatten(JournalWords(j)) }

  function DecodeJournal(b: Bytes): Option<Journal> {
    if |b| != JOURNAL_LEN then None else JournalOf(WordsOf(b))
  }

  lemma JournalOfWords(j: Journal)
    requires JournalFits(j)
    ensures JournalOf(JournalWords(j)) == Some(j)
  {
    IntRoundTrip(j.chainId);
    IntRoundTrip(j.epoch);
    IntRoundTrip(j.index);
    IntRoundTrip(j.lastHeight);
    IntRoundTrip(j.stateHeight);
    IntRoundTrip(j.timestampMs);
  }

  lemma WordsOfJournal(w: seq<Word>)
    requires |w| == JOURNAL_WORDS && JournalOf(w).Some?
    ensures JournalWords(JournalOf(w).value) == w && JournalFits(JournalOf(w).value)
  {
    IntCanonical(w[0]);
    IntCanonical(w[2]);
    IntCanonical(w[4]);
    IntCanonical(w[6]);
    IntCanonical(w[7]);
    IntCanonical(w[12]);
  }

  /** Every journal is read back from its words. */
  lemma JournalDecodeEncode(j: Journal)
    requires JournalFits(j)
    ensures DecodeJournal(EncodeJournal(j)) == Some(j)
  {
    JournalOfWords(j);
    WordsFlatten(JournalWords(j));
  }

  /** The only bytes that decode to a journal are its encoding: no two carry one checkpoint. */
  lemma JournalEncodeDecode(b: Bytes)
    requires DecodeJournal(b).Some?
    ensures EncodeJournal(DecodeJournal(b).value) == b && JournalFits(DecodeJournal(b).value)
  {
    WordsOfJournal(WordsOf(b));
    FlattenWords(b);
  }

  // ---- The proof's claim ----

  datatype Params = Params(imageId: Word, chainId: nat, genesisHash: Word)

  /** How a seal fares as a proof of a claim; `None` is success. */
  type SealCheck = (Bytes, Word) -> Option<Error>

  function OutputBytes(outputTag: Word, journalDigest: Word): Bytes {
    outputTag + journalDigest + ZERO + LE(2, 2)
  }

  function ClaimBytes(claimTag: Word, imageId: Word, postState: Word, output: Word): Bytes {
    claimTag + (ZERO + (imageId + (postState + (output + (LE(4, 0) + LE(4, 0) + LE(2, 4))))))
  }

  /** The digest of the state a program ends in when it halts. */
  const HALTED: Word := [0xa3, 0xac, 0xc2, 0x71, 0x17, 0x41, 0x89, 0x96, 0x34, 0x0b, 0x84, 0xe5, 0xa9, 0x0f, 0x3e, 0xf4,
                         0xc4, 0x9d, 0x22, 0xc7, 0x9e, 0x44, 0xaa, 0xd8, 0x22, 0xec, 0x9c, 0x31, 0x3e, 0x1e, 0xb8, 0xe2]

  const OUTPUT_TAG: Bytes := Ascii("risc0.Output")
  const CLAIM_TAG: Bytes := Ascii("risc0.ReceiptClaim")

  /** The digest of a successful receipt of program `imageId` with this journal. */
  function Claim(h: Hash, imageId: Word, journal: Bytes): Word {
    h(ClaimBytes(h(CLAIM_TAG), imageId, HALTED, h(OutputBytes(h(OUTPUT_TAG), h(journal)))))
  }

  /** `xs` holds what computing a claim hashes after the tags. */
  ghost predicate ClaimIn(h: Hash, imageId: Word, journal: Bytes, xs: set<Bytes>) {
    var output := OutputBytes(h(OUTPUT_TAG), h(journal));
    journal in xs && output in xs && ClaimBytes(h(CLAIM_TAG), imageId, HALTED, h(output)) in xs
  }

  lemma ClaimParts(t: Word, i: Word, p: Word, o: Word, i': Word, o': Word)
    requires ClaimBytes(t, i, p, o) == ClaimBytes(t, i', p, o')
    ensures i == i' && o == o'
  {
    var end := LE(4, 0) + LE(4, 0) + LE(2, 4);
    SplitEqual(t, ZERO + (i + (p + (o + end))), t, ZERO + (i' + (p + (o' + end))));
    SplitEqual(ZERO, i + (p + (o + end)), ZERO, i' + (p + (o' + end)));
    SplitEqual(i, p + (o + end), i', p + (o' + end));
    SplitEqual(p, o + end, p, o' + end);
    SplitEqual(o, end, o', end);
  }

  lemma OutputParts(t: Word, d: Word, d': Word)
    requires OutputBytes(t, d) == OutputBytes(t, d')
    ensures d == d'
  {
    SplitEqual(t + d + ZERO, LE(2, 2), t + d' + ZERO, LE(2, 2));
    SplitEqual(t + d, ZERO, t + d', ZERO);
    SplitEqual(t, d, t, d');
  }

  /** A claim is of one program and one journal. */
  lemma ClaimBinds(h: Hash, i: Word, j: Bytes, i': Word, j': Bytes, xs: set<Bytes>)
    requires Claim(h, i, j) == Claim(h, i', j') && ClaimIn(h, i, j, xs) && ClaimIn(h, i', j', xs)
    ensures (i == i' && j == j') || Collides(h, xs)
  {
    var t, u := h(CLAIM_TAG), h(OUTPUT_TAG);
    var o, o' := OutputBytes(u, h(j)), OutputBytes(u, h(j'));
    SameHash(h, xs, ClaimBytes(t, i, HALTED, h(o)), ClaimBytes(t, i', HALTED, h(o')));
    if !Collides(h, xs) {
      ClaimParts(t, i, HALTED, h(o), i', h(o'));
      SameHash(h, xs, o, o');
      OutputParts(u, h(j), h(j'));
      SameHash(h, xs, j, j');
    }
  }

  // ---- The client over an unbounded store ----

  /** Committee roots by epoch, and the accepted checkpoint at each index. */
  datatype Client = Client(roots: map<nat, Word>, finals: map<nat, Journal>)

  function Get<V>(m: map<nat, V>, k: nat): Option<V> {
    if k in m then Some(m[k]) else None
  }

  /** The journal of this chain that `seal` proves. */
  function Proven(h: Hash, seals: SealCheck, params: Params, journal: Bytes, seal: Bytes): Result<Journal, Error> {
    match seals(seal, Claim(h, params.imageId, journal))
    case Some(e) => Err(e)
    case None =>
      match DecodeJournal(journal)
      case None => Err(MalformedJournal)
      case Some(j) =>
        if j.chainId != params.chainId || j.genesisHash != params.genesisHash then Err(WrongChain) else Ok(j)
  }

  /** The journal was signed under `held`, the root its epoch is known by. */
  predicate Names(j: Journal, held: Option<Word>) {
    held == Some(j.committeeRoot) && j.committeeRoot != ZERO
  }

  function Check(h: Hash, seals: SealCheck, params: Params, c: Client, journal: Bytes, seal: Bytes): Result<Journal,
                 Error> {
    match Proven(h, seals, params, journal, seal)
    case Err(e) => Err(e)
    case Ok(j) => if Names(j, Get(c.roots, j.epoch)) then Ok(j) else Err(UnknownCommittee)
  }

  /** A checkpoint that ends its epoch hands over, once. */
  predicate HandsOver(c: Client, j: Journal) {
    j.nextCommitteeRoot != ZERO && j.epoch + 1 !in c.roots
  }

  function Accept(c: Client, j: Journal): Client {
    Client(if HandsOver(c, j) then c.roots[j.epoch + 1 := j.nextCommitteeRoot] else c.roots, c.finals[j.index := j])
  }

  /** Why a checked journal is still refused, or the journal. */
  function Admit(c: Client, j: Journal): Result<Journal, Error> {
    if j.index in c.finals then Err(AlreadyFinal)
    else if j.nextCommitteeRoot != ZERO && j.epoch + 1 == U64 then Err(EpochOverflow)
    else Ok(j)
  }

  function Submit(h: Hash, seals: SealCheck, params: Params, c: Client, journal: Bytes, seal: Bytes): Result<Journal,
                  Error> {
    match Check(h, seals, params, c, journal, seal)
    case Err(e) => Err(e)
    case Ok(j) => Admit(c, j)
  }

  /** The client as a contract keeps it, updated call by call. */
  class Ledger {
    var roots: map<nat, Word>
    var finals: map<nat, Journal>

    function View(): Client
      reads this
    {
      Client(roots, finals)
    }

    constructor (genesisCommitteeRoot: Word)
      ensures View() == Genesis(genesisCommitteeRoot)
    {
      roots := map[0 := genesisCommitteeRoot];
      finals := map[];
    }

    /** The checks that store nothing. */
    method CheckCheckpoint(h: Hash, seals: SealCheck, params: Params, journal: Bytes, seal: Bytes)
      returns (r: Result<Journal, Error>)
      ensures r == Check(h, seals, params, View(), journal, seal)
    {
      r := Proven(h, seals, params, journal, seal);
      if r.Ok? {
        var j := r.value;
        if j.epoch !in roots || roots[j.epoch] != j.committeeRoot || j.committeeRoot == ZERO {
          r := Err(UnknownCommittee);
        }
      }
    }

    method Store(j: Journal) returns (r: Result<Journal, Error>)
      modifies this
      ensures r == Admit(old(View()), j)
      ensures View() == if r.Ok? then Accept(old(View()), j) else old(View())
    {
      if j.index in finals { return Err(AlreadyFinal); }
      if j.nextCommitteeRoot != ZERO && j.epoch + 1 == U64 { return Err(EpochOverflow); }
      finals := finals[j.index := j];
      if j.nextCommitteeRoot != ZERO && j.epoch + 1 !in roots {
        roots := roots[j.epoch + 1 := j.nextCommitteeRoot];
      }
      return Ok(j);
    }

    method SubmitCheckpoint(h: Hash, seals: SealCheck, params: Params, journal: Bytes, seal: Bytes)
      returns (r: Result<Journal, Error>)
      modifies this
      ensures r == Submit(h, seals, params, old(View()), journal, seal)
      ensures View() == if r.Ok? then Accept(old(View()), r.value) else old(View())
    {
      r := CheckCheckpoint(h, seals, params, journal, seal);
      if r.Ok? {
        r := Store(r.value);
      }
    }
  }

  // ---- Runs ----

  function Genesis(root: Word): Client { Client(map[0 := root], map[]) }

  /** The journals accepted so far, oldest first, and the client they left. */
  datatype History = History(client: Client, log: seq<Journal>)

  function Step(h: Hash, seals: SealCheck, params: Params, s: History, journal: Bytes, seal: Bytes): History {
    match Submit(h, seals, params, s.client, journal, seal)
    case Err(_) => s
    case Ok(j) => History(Accept(s.client, j), s.log + [j])
  }

  /** The client after any sequence of submissions from the genesis committee. */
  function Run(h: Hash, seals: SealCheck, params: Params, genesis: Word, calls: seq<(Bytes, Bytes)>): History {
    if calls == [] then History(Genesis(genesis), [])
    else
      var last := calls[|calls| - 1];
      Step(h, seals, params, Run(h, seals, params, genesis, calls[..|calls| - 1]), last.0, last.1)
  }

  /** The newest epoch handed over to by a log. */
  function Top(log: seq<Journal>): nat {
    if log == [] then 0 else
    var t, j := Top(log[..|log| - 1]), log[|log| - 1];
    if j.nextCommitteeRoot != ZERO && j.epoch == t then t + 1 else t
  }

  /** Some accepted checkpoint of epoch `e`, under its root, stated the root of `e + 1`. */
  ghost predicate HandedOver(c: Client, log: seq<Journal>, e: nat) {
    && e in c.roots && e + 1 in c.roots
    && exists i :: 0 <= i < |log| && log[i].epoch == e && log[i].committeeRoot == c.roots[e]
         && log[i].nextCommitteeRoot == c.roots[e + 1] != ZERO
  }

  /** The epochs known are exactly those up to the newest, from the genesis committee. */
  ghost predicate KnownEpochs(genesis: Word, c: Client, log: seq<Journal>) {
    (forall e: nat :: e in c.roots <==> e <= Top(log)) && c.roots[0] == genesis
  }

  /** Each committee was stated by an accepted checkpoint of the one before it. */
  ghost predicate Provenance(c: Client, log: seq<Journal>) {
    forall e: nat :: e < Top(log) ==> HandedOver(c, log, e)
  }

  /** An accepted checkpoint is of this chain, under the root held for its epoch, and kept at its index. */
  predicate FinalAt(params: Params, c: Client, j: Journal) {
    && j.chainId == params.chainId && j.genesisHash == params.genesisHash
    && j.epoch in c.roots && c.roots[j.epoch] == j.committeeRoot != ZERO
    && j.index in c.finals && c.finals[j.index] == j
  }

  ghost predicate Checkpoints(params: Params, c: Client, log: seq<Journal>) {
    && (forall i :: 0 <= i < |log| ==> FinalAt(params, c, log[i]))
    && (forall x :: x in c.finals ==> c.finals[x] in log)
  }

  /** No index was finalised twice. */
  ghost predicate OncePerIndex(log: seq<Journal>) {
    forall i, j :: 0 <= i < j < |log| ==> log[i].index != log[j].index
  }

  /** What every reachable client keeps. */
  ghost predicate Kept(params: Params, genesis: Word, s: History) {
    && KnownEpochs(genesis, s.client, s.log) && Provenance(s.client, s.log)
    && Checkpoints(params, s.client, s.log) && OncePerIndex(s.log)
  }

  lemma TopOf(log: seq<Journal>, j: Journal)
    ensures Top(log + [j]) == if j.nextCommitteeRoot != ZERO && j.epoch == Top(log) then Top(log) + 1 else Top(log)
  {
    assert (log + [j])[..|log|] == log;
  }

  lemma EpochsByAccept(genesis: Word, c: Client, log: seq<Journal>, j: Journal)
    requires KnownEpochs(genesis, c, log) && j.epoch in c.roots
    ensures KnownEpochs(genesis, Accept(c, j), log + [j])
    ensures HandsOver(c, j) <==> Top(log + [j]) == Top(log) + 1
    ensures HandsOver(c, j) ==> j.epoch == Top(log)
  {
    TopOf(log, j);
  }

  lemma HandedOverKept(c: Client, log: seq<Journal>, d: Client, j: Journal, e: nat)
    requires HandedOver(c, log, e)
    requires e in d.roots && e + 1 in d.roots && d.roots[e] == c.roots[e] && d.roots[e + 1] == c.roots[e + 1]
    ensures HandedOver(d, log + [j], e)
  {
    var i :| 0 <= i < |log| && log[i].epoch == e && log[i].committeeRoot == c.roots[e]
      && log[i].nextCommitteeRoot == c.roots[e + 1] != ZERO;
    assert (log + [j])[i] == log[i];
  }

  lemma ProvenanceByAccept(genesis: Word, c: Client, log: seq<Journal>, j: Journal)
    requires KnownEpochs(genesis, c, log) && Provenance(c, log)
    requires j.epoch in c.roots && c.roots[j.epoch] == j.committeeRoot
    ensures Provenance(Accept(c, j), log + [j])
  {
    EpochsByAccept(genesis, c, log, j);
    var d := Accept(c, j);
    forall e: nat | e < Top(log + [j])
      ensures HandedOver(d, log + [j], e)
    {
      if e < Top(log) {
        HandedOverKept(c, log, d, j, e);
      } else {
        assert (log + [j])[|log|] == j;
      }
    }
  }

  lemma CheckpointsByAccept(params: Params, c: Client, log: seq<Journal>, j: Journal)
    requires Checkpoints(params, c, log) && OncePerIndex(log) && j.index !in c.finals
    requires j.chainId == params.chainId && j.genesisHash == params.genesisHash
    requires j.epoch in c.roots && c.roots[j.epoch] == j.committeeRoot != ZERO
    ensures Checkpoints(params, Accept(c, j), log + [j]) && OncePerIndex(log + [j])
  {
    var d, all := Accept(c, j), log + [j];
    forall i | 0 <= i < |all|
      ensures FinalAt(params, d, all[i])
    {
      if i < |log| { assert FinalAt(params, c, log[i]); }
    }
    forall x | x in d.finals
      ensures d.finals[x] in all
    {
      assert x == j.index || c.finals[x] in log;
    }
  }

  /** What a granted submission checked. */
  lemma SubmitChecks(h: Hash, seals: SealCheck, params: Params, c: Client, journal: Bytes, seal: Bytes)
    requires Submit(h, seals, params, c, journal, seal).Ok?
    ensures var j := Submit(h, seals, params, c, journal, seal).value;
      && DecodeJournal(journal) == Some(j) && seals(seal, Claim(h, params.imageId, journal)) == None
      && j.index !in c.finals && j.chainId == params.chainId && j.genesisHash == params.genesisHash
      && j.epoch in c.roots && c.roots[j.epoch] == j.committeeRoot != ZERO
  {
  }

  /** A proven checkpoint of this chain, under the known root of its epoch and not final yet, is accepted. */
  lemma ProvenIsAccepted(h: Hash, seals: SealCheck, params: Params, c: Client, j: Journal, seal: Bytes)
    requires JournalFits(j) && seals(seal, Claim(h, params.imageId, EncodeJournal(j))) == None
    requires j.chainId == params.chainId && j.genesisHash == params.genesisHash
    requires j.epoch in c.roots && c.roots[j.epoch] == j.committeeRoot != ZERO && j.index !in c.finals
    requires j.nextCommitteeRoot == ZERO || j.epoch + 1 < U64
    ensures Submit(h, seals, params, c, EncodeJournal(j), seal) == Ok(j)
  {
    JournalDecodeEncode(j);
    DecodedIsAccepted(h, seals, params, c, EncodeJournal(j), j, seal);
  }

  lemma DecodedIsAccepted(h: Hash, seals: SealCheck, params: Params, c: Client, b: Bytes, j: Journal, seal: Bytes)
    requires DecodeJournal(b) == Some(j) && seals(seal, Claim(h, params.imageId, b)) == None
    requires j.chainId == params.chainId && j.genesisHash == params.genesisHash
    requires j.epoch in c.roots && c.roots[j.epoch] == j.committeeRoot != ZERO && j.index !in c.finals
    requires j.nextCommitteeRoot == ZERO || j.epoch + 1 < U64
    ensures Submit(h, seals, params, c, b, seal) == Ok(j)
  {
    assert Proven(h, seals, params, b, seal) == Ok(j);
    assert Check(h, seals, params, c, b, seal) == Ok(j);
  }

  /** In every run of submissions the client keeps its committees, checkpoints and their provenance. */
  lemma {:induction false} RunKeeps(h: Hash, seals: SealCheck, params: Params, genesis: Word,
                                    calls: seq<(Bytes, Bytes)>)
    ensures Kept(params, genesis, Run(h, seals, params, genesis, calls))
  {
    if calls != [] {
      RunKeeps(h, seals, params, genesis, calls[..|calls| - 1]);
      var s := Run(h, seals, params, genesis, calls[..|calls| - 1]);
      StepKeeps(h, seals, params, genesis, s, calls[|calls| - 1].0, calls[|calls| - 1].1);
    }
  }

  lemma StepKeeps(h: Hash, seals: SealCheck, params: Params, genesis: Word, s: History, journal: Bytes, seal: Bytes)
    requires Kept(params, genesis, s)
    ensures Kept(params, genesis, Step(h, seals, params, s, journal, seal))
  {
    var r := Submit(h, seals, params, s.client, journal, seal);
    if r.Ok? {
      SubmitChecks(h, seals, params, s.client, journal, seal);
      EpochsByAccept(genesis, s.client, s.log, r.value);
      ProvenanceByAccept(genesis, s.client, s.log, r.value);
      CheckpointsByAccept(params, s.client, s.log, r.value);
    }
  }

  /** What one client holds, the other holds too. */
  ghost predicate Extends(c: Client, d: Client) {
    && (forall e :: e in c.roots ==> e in d.roots && d.roots[e] == c.roots[e])
    && (forall x :: x in c.finals ==> x in d.finals && d.finals[x] == c.finals[x])
  }

  lemma StepExtends(h: Hash, seals: SealCheck, params: Params, s: History, journal: Bytes, seal: Bytes)
    ensures Extends(s.client, Step(h, seals, params, s, journal, seal).client)
  {
    if Submit(h, seals, params, s.client, journal, seal).Ok? {
      SubmitChecks(h, seals, params, s.client, journal, seal);
    }
  }

  /** Stored roots and checkpoints never change over a run. */
  lemma {:induction false} RunExtends(h: Hash, seals: SealCheck, params: Params, genesis: Word,
                                      calls: seq<(Bytes, Bytes)>, n: nat)
    requires n <= |calls|
    ensures Extends(Run(h, seals, params, genesis, calls[..n]).client, Run(h, seals, params, genesis, calls).client)
    decreases |calls|
  {
    if n == |calls| {
      assert calls[..n] == calls;
    } else {
      var before, last := calls[..|calls| - 1], calls[|calls| - 1];
      assert before[..n] == calls[..n];
      RunExtends(h, seals, params, genesis, before, n);
      StepExtends(h, seals, params, Run(h, seals, params, genesis, before), last.0, last.1);
    }
  }
}
