// The finality client as an IBC light client: its consensus states by height,
// and the copies kept where the 08-wasm module looks for them.
module CosmosClient {
  import opened Encoding
  import opened Hashing
  import opened StateProof
  import Trie = StateTrie
  import opened Finality
  import opened Protobuf

  datatype ClientData = ClientData(
    imageId: Word, chainId: nat, genesisHash: Word, genesisCommitteeRoot: Word,
    latestHeight: nat, latestIndex: nat, frozen: bool)

  datatype ConsensusData = ConsensusData(index: nat, checkpointDigest: Word, stateRoot: Word, timestampMs: nat)

  /** How records are written as JSON. */
  datatype Json = Json(client: ClientData -> Bytes, consensus: ConsensusData -> Bytes)

  // ---- What 08-wasm reads ----

  const CLIENT_TYPE: Bytes := Ascii("/ibc.lightclients.wasm.v1.ClientState")
  const CONSENSUS_TYPE: Bytes := Ascii("/ibc.lightclients.wasm.v1.ConsensusState")

  function WasmClientState(typeUrl: Bytes, data: Bytes, checksum: Bytes, latestHeight: nat): Bytes {
    Any(typeUrl, FieldBytes(1, data) + (FieldBytes(2, checksum) + FieldBytes(3, FieldInt(2, latestHeight))))
  }

  function WasmConsensusState(typeUrl: Bytes, data: Bytes): Bytes {
    Any(typeUrl, FieldBytes(1, data))
  }

  function ReadData(typeUrl: Bytes, b: Bytes): Option<Bytes> {
    match ReadAny(typeUrl, b)
    case None => None
    case Some(value) =>
      match ReadField(1, value)
      case None => None
      case Some((data, _)) => Some(data)
  }

  /** 08-wasm reads back exactly the data the client wrapped, in both kinds of state. */
  lemma WasmReadsData(typeUrl: Bytes, data: Bytes, checksum: Bytes, latestHeight: nat)
    ensures ReadData(typeUrl, WasmClientState(typeUrl, data, checksum, latestHeight)) == Some(data)
    ensures ReadData(typeUrl, WasmConsensusState(typeUrl, data)) == Some(data)
  {
    var tail := FieldBytes(2, checksum) + FieldBytes(3, FieldInt(2, latestHeight));
    ReadAnyBack(typeUrl, FieldBytes(1, data) + tail);
    ReadFieldBack(1, data, tail);
    ReadAnyBack(typeUrl, FieldBytes(1, data));
    ReadFieldBack(1, data, []);
    assert FieldBytes(1, data) + [] == FieldBytes(1, data);
  }

  // ---- Storage keys ----

  datatype Key =
    | ClientStateKey | ChecksumKey | ClientDataKey
    | WasmConsensusKey(height: nat) | CommitteeKey(epoch: nat) | FinalKey(index: nat) | ConsensusKey(height: nat)

  function Decimal(n: nat): (b: Bytes)
    ensures |b| > 0
  {
    if n < 10 then [48 + n] else Decimal(n / 10) + [48 + n % 10]
  }

  function FromDecimal(b: Bytes): int {
    if b == [] then 0 else 10 * FromDecimal(b[..|b| - 1]) + (b[|b| - 1] as int - 48)
  }

  lemma {:induction false} DecimalRoundTrip(n: nat)
    ensures FromDecimal(Decimal(n)) == n
  {
    var b := Decimal(n);
    if n < 10 {
      assert b[..|b| - 1] == [];
    } else {
      DecimalRoundTrip(n / 10);
      assert b[..|b| - 1] == Decimal(n / 10);
    }
  }

  function Prefix(k: Key): string {
    match k
    case ClientStateKey => "clientState"
    case ChecksumKey => "tenzro/checksum"
    case ClientDataKey => "tenzro/client"
    case WasmConsensusKey(_) => "consensusStates/0-"
    case CommitteeKey(_) => "tenzro/committee/"
    case FinalKey(_) => "tenzro/final/"
    case ConsensusKey(_) => "tenzro/consensus/"
  }

  function Suffix(k: Key): Bytes {
    match k
    case WasmConsensusKey(height) => Decimal(height)
    case CommitteeKey(epoch) => Decimal(epoch)
    case FinalKey(index) => Decimal(index)
    case ConsensusKey(height) => BE(8, height)
    case _ => []
  }

  function KeyBytes(k: Key): Bytes { Ascii(Prefix(k)) + Suffix(k) }

  /** The letters that tell the prefixes apart. */
  function Mark(k: Key): (int, int, int)
  {
    var s := Prefix(k);
    (s[0] as int % 256, s[8] as int % 256, s[9] as int % 256)
  }

  lemma MarkOf(k: Key)
    ensures |KeyBytes(k)| > 9 && Mark(k) == (KeyBytes(k)[0] as int, KeyBytes(k)[8] as int, KeyBytes(k)[9] as int)
  {
    var s := Prefix(k);
    AsciiAt(s, 0);
    AsciiAt(s, 8);
    AsciiAt(s, 9);
  }

  lemma SameMark(k: Key, k': Key)
    requires Mark(k) == Mark(k')
    ensures Prefix(k) == Prefix(k')
  {
  }

  /** Distinct records live at distinct keys, so no write disturbs another record. */
  lemma KeysDistinct(k: Key, k': Key)
    requires (k.ConsensusKey? ==> k.height < U64) && (k'.ConsensusKey? ==> k'.height < U64)
    requires KeyBytes(k) == KeyBytes(k')
    ensures k == k'
  {
    MarkOf(k);
    MarkOf(k');
    SameMark(k, k');
    SamePrefix(k, k');
  }

  lemma SamePrefix(k: Key, k': Key)
    requires (k.ConsensusKey? ==> k.height < U64) && (k'.ConsensusKey? ==> k'.height < U64)
    requires Prefix(k) == Prefix(k') && KeyBytes(k) == KeyBytes(k')
    ensures k == k'
  {
    SplitEqual(Ascii(Prefix(k)), Suffix(k), Ascii(Prefix(k')), Suffix(k'));
    SameKind(k, k');
    match k
    case WasmConsensusKey(h) => DecimalRoundTrip(h); DecimalRoundTrip(k'.height);
    case CommitteeKey(e) => DecimalRoundTrip(e); DecimalRoundTrip(k'.epoch);
    case FinalKey(x) => DecimalRoundTrip(x); DecimalRoundTrip(k'.index);
    case ConsensusKey(h) => Widths(); BEInjective(8, h, k'.height);
    case _ =>
  }

  lemma SameKind(k: Key, k': Key)
    requires Prefix(k) == Prefix(k')
    ensures k.ClientStateKey? == k'.ClientStateKey? && k.ChecksumKey? == k'.ChecksumKey?
    ensures k.ClientDataKey? == k'.ClientDataKey? && k.WasmConsensusKey? == k'.WasmConsensusKey?
    ensures k.CommitteeKey? == k'.CommitteeKey? && k.FinalKey? == k'.FinalKey? && k.ConsensusKey? == k'.ConsensusKey?
  {
    assert Prefix(k)[8] == Prefix(k')[8] && Prefix(k)[9] == Prefix(k')[9] && Prefix(k)[0] == Prefix(k')[0];
  }

  // ---- The client ----

  datatype Refusal =
    | Frozen | NotAMessage | BadProof(error: Error) | WrongRevision | NoConsensusState | BadPath | NotProven

  /** Everything the contract stores. */
  datatype Store = Store(
    client: ClientData, finality: Client, consensus: map<nat, ConsensusData>, checksum: Bytes,
    wasmClient: Bytes, wasmConsensus: map<nat, Bytes>)

  function ParamsOf(c: ClientData): Params { Params(c.imageId, c.chainId, c.genesisHash) }

  function WrapClient(json: Json, c: ClientData, checksum: Bytes): Bytes {
    WasmClientState(CLIENT_TYPE, json.client(c), checksum, c.latestHeight)
  }

  function WrapConsensus(json: Json, d: ConsensusData): Bytes {
    WasmConsensusState(CONSENSUS_TYPE, json.consensus(d))
  }

  function SaveClient(json: Json, s: Store, c: ClientData): Store {
    s.(client := c, wasmClient := WrapClient(json, c, s.checksum))
  }

  function SaveConsensus(json: Json, s: Store, height: nat, d: ConsensusData): Store {
    s.(consensus := s.consensus[height := d], wasmConsensus := s.wasmConsensus[height := WrapConsensus(json, d)])
  }

  function Instantiated(json: Json, client: ClientData, consensus: ConsensusData, checksum: Bytes): Store {
    var c := client.(frozen := false);
    var s := Store(c, Genesis(c.genesisCommitteeRoot), map[], checksum, [], map[]);
    SaveConsensus(json, SaveClient(json, s, c), c.latestHeight, consensus)
  }

  function Consensus(j: Journal): ConsensusData {
    ConsensusData(j.index, j.checkpointDigest, j.stateRoot, j.timestampMs)
  }

  /** The client record after a checkpoint: it follows the greatest height. */
  function Advanced(c: ClientData, j: Journal): ClientData {
    if j.stateHeight > c.latestHeight then c.(latestHeight := j.stateHeight, latestIndex := j.index) else c
  }

  function Updated(json: Json, s: Store, j: Journal): Store {
    SaveClient(json, SaveConsensus(json, s.(finality := Accept(s.finality, j)), j.stateHeight, Consensus(j)),
               Advanced(s.client, j))
  }

  /** An update carries a journal followed by its seal. */
  function UpdateState(h: Hash, seals: SealCheck, s: Store, message: Bytes): Result<Journal, Refusal> {
    if s.client.frozen then Err(Frozen)
    else if |message| <= JOURNAL_LEN then Err(NotAMessage)
    else match Submit(h, seals, ParamsOf(s.client), s.finality, message[..JOURNAL_LEN], message[JOURNAL_LEN..])
      case Err(e) => Err(BadProof(e))
      case Ok(j) => Ok(j)
  }

  /** The contract itself, storing call by call. */
  class LightClient {
    var client: ClientData
    var roots: map<nat, Word>
    var finals: map<nat, Journal>
    var consensus: map<nat, ConsensusData>
    var checksum: Bytes
    var wasmClient: Bytes
    var wasmConsensus: map<nat, Bytes>
    const json: Json

    ghost function Held(): Store
      reads this
    {
      Store(client, Client(roots, finals), consensus, checksum, wasmClient, wasmConsensus)
    }

    constructor (json: Json, initial: ClientData, first: ConsensusData, checksum: Bytes)
      ensures this.json == json && Held() == Instantiated(json, initial, first, checksum)
    {
      var c := initial.(frozen := false);
      this.json := json;
      client, roots, finals := c, map[0 := c.genesisCommitteeRoot], map[];
      this.checksum, wasmClient := checksum, WrapClient(json, c, checksum);
      consensus, wasmConsensus := map[c.latestHeight := first], map[c.latestHeight := WrapConsensus(json, first)];
    }

    method SaveClientData(c: ClientData)
      modifies this`client, this`wasmClient
      ensures Held() == SaveClient(json, old(Held()), c)
    {
      client, wasmClient := c, WrapClient(json, c, checksum);
    }

    method SaveConsensusData(height: nat, d: ConsensusData)
      modifies this`consensus, this`wasmConsensus
      ensures Held() == SaveConsensus(json, old(Held()), height, d)
    {
      consensus, wasmConsensus := consensus[height := d], wasmConsensus[height := WrapConsensus(json, d)];
    }

    method Record(j: Journal)
      modifies this
      ensures Held() == Updated(json, old(Held()), j)
    {
      finals := finals[j.index := j];
      if j.nextCommitteeRoot != ZERO && j.epoch + 1 !in roots {
        roots := roots[j.epoch + 1 := j.nextCommitteeRoot];
      }
      SaveConsensusData(j.stateHeight, Consensus(j));
      var c := client;
      if j.stateHeight > c.latestHeight {
        c := c.(latestHeight := j.stateHeight, latestIndex := j.index);
      }
      SaveClientData(c);
    }

    method Update(h: Hash, seals: SealCheck, message: Bytes) returns (r: Result<Journal, Refusal>)
      modifies this
      ensures r == UpdateState(h, seals, old(Held()), message)
      ensures Held() == if r.Ok? then Updated(json, old(Held()), r.value) else old(Held())
    {
      var s := Store(client, Client(roots, finals), consensus, checksum, wasmClient, wasmConsensus);
      r := UpdateState(h, seals, s, message);
      if r.Ok? {
        Record(r.value);
      }
    }

    method Freeze()
      modifies this
      ensures Held() == SaveClient(json, old(Held()), old(Held()).client.(frozen := true))
    {
      SaveClientData(client.(frozen := true));
    }
  }

  // ---- Runs ----

  datatype Msg = UpdateMsg(message: Bytes) | MisbehaviourMsg

  /** The store and the checkpoints accepted so far. */
  datatype Progress = Progress(store: Store, log: seq<Journal>)

  function Sudo(h: Hash, seals: SealCheck, json: Json, p: Progress, m: Msg): Progress {
    match m
    case UpdateMsg(message) =>
      (match UpdateState(h, seals, p.store, message)
       case Err(_) => p
       case Ok(j) => Progress(Updated(json, p.store, j), p.log + [j]))
    case MisbehaviourMsg => p.(store := SaveClient(json, p.store, p.store.client.(frozen := true)))
  }

  function Play(h: Hash, seals: SealCheck, json: Json, start: Store, msgs: seq<Msg>): Progress {
    if msgs == [] then Progress(start, [])
    else Sudo(h, seals, json, Play(h, seals, json, start, msgs[..|msgs| - 1]), msgs[|msgs| - 1])
  }

  /** The copies where 08-wasm reads are the client's own records, wrapped. */
  ghost predicate CopiesMatch(json: Json, s: Store) {
    && s.wasmClient == WrapClient(json, s.client, s.checksum)
    && s.wasmConsensus.Keys == s.consensus.Keys
    && forall x :: x in s.consensus ==> s.wasmConsensus[x] == WrapConsensus(json, s.consensus[x])
  }

  /** The latest height is the greatest there is a consensus state for. */
  ghost predicate LatestIsMax(s: Store) {
    && s.client.latestHeight in s.consensus
    && forall x :: x in s.consensus ==> x <= s.client.latestHeight
  }

  /** The parameters fixed at instantiation. */
  predicate SameChain(a: ClientData, b: ClientData) {
    ParamsOf(a) == ParamsOf(b) && a.genesisCommitteeRoot == b.genesisCommitteeRoot
  }

  /** Every consensus state is an accepted checkpoint's, or the first one. */
  ghost predicate ConsensusFrom(s: Store, start: Store, log: seq<Journal>) {
    forall x :: x in s.consensus ==>
      || (x in start.consensus && s.consensus[x] == start.consensus[x])
      || exists i :: 0 <= i < |log| && IsStateOf(s.consensus[x], x, log[i])
  }

  /** The consensus state at `height` is what that checkpoint said. */
  predicate IsStateOf(d: ConsensusData, height: nat, j: Journal) {
    && j.stateHeight == height && d.index == j.index && d.checkpointDigest == j.checkpointDigest
    && d.stateRoot == j.stateRoot && d.timestampMs == j.timestampMs
  }

  /** The latest index is that of a checkpoint which brought the latest height, or the first one. */
  ghost predicate LatestFrom(s: Store, start: Store, log: seq<Journal>) {
    || (s.client.latestHeight == start.client.latestHeight && s.client.latestIndex == start.client.latestIndex)
    || exists i :: 0 <= i < |log| && log[i].stateHeight == s.client.latestHeight && log[i].index == s.client.latestIndex
  }

  ghost predicate Sound(json: Json, start: Store, p: Progress) {
    && CopiesMatch(json, p.store) && LatestIsMax(p.store) && SameChain(p.store.client, start.client)
    && ConsensusFrom(p.store, start, p.log) && LatestFrom(p.store, start, p.log)
    && Kept(ParamsOf(start.client), start.client.genesisCommitteeRoot, History(p.store.finality, p.log))
  }

  lemma ConsensusAppended(json: Json, s: Store, start: Store, log: seq<Journal>, j: Journal)
    requires ConsensusFrom(s, start, log)
    ensures ConsensusFrom(Updated(json, s, j), start, log + [j])
  {
    var t, all := Updated(json, s, j), log + [j];
    forall x | x in t.consensus
      ensures || (x in start.consensus && t.consensus[x] == start.consensus[x])
              || exists i :: 0 <= i < |all| && IsStateOf(t.consensus[x], x, all[i])
    {
      if x == j.stateHeight {
        assert all[|log|] == j;
      } else if !(x in start.consensus && s.consensus[x] == start.consensus[x]) {
        var i :| 0 <= i < |log| && IsStateOf(s.consensus[x], x, log[i]);
        assert all[i] == log[i];
      }
    }
  }

  lemma UpdatedRecords(json: Json, s: Store, j: Journal)
    requires CopiesMatch(json, s) && LatestIsMax(s)
    ensures CopiesMatch(json, Updated(json, s, j)) && LatestIsMax(Updated(json, s, j))
  {
  }

  lemma UpdateSound(json: Json, start: Store, p: Progress, j: Journal)
    requires Sound(json, start, p)
    requires Kept(ParamsOf(start.client), start.client.genesisCommitteeRoot,
                  History(Accept(p.store.finality, j), p.log + [j]))
    ensures Sound(json, start, Progress(Updated(json, p.store, j), p.log + [j]))
  {
    UpdatedRecords(json, p.store, j);
    ConsensusAppended(json, p.store, start, p.log, j);
    LatestAppended(json, p.store, start, p.log, j);
  }

  lemma LatestAppended(json: Json, s: Store, start: Store, log: seq<Journal>, j: Journal)
    requires LatestFrom(s, start, log)
    ensures LatestFrom(Updated(json, s, j), start, log + [j])
  {
    var t, all := Updated(json, s, j).client, log + [j];
    if j.stateHeight > s.client.latestHeight {
      assert all[|log|] == j && all[|log|].stateHeight == t.latestHeight && all[|log|].index == t.latestIndex;
    } else if !(s.client.latestHeight == start.client.latestHeight && s.client.latestIndex == start.client.latestIndex) {
      var i :| 0 <= i < |log| && log[i].stateHeight == s.client.latestHeight && log[i].index == s.client.latestIndex;
      assert all[i] == log[i];
    }
  }

  lemma FreezeSound(json: Json, start: Store, p: Progress)
    requires Sound(json, start, p)
    ensures Sound(json, start, p.(store := SaveClient(json, p.store, p.store.client.(frozen := true))))
  {
  }

  lemma SudoSound(h: Hash, seals: SealCheck, json: Json, start: Store, p: Progress, m: Msg)
    requires Sound(json, start, p)
    ensures Sound(json, start, Sudo(h, seals, json, p, m))
  {
    match m
    case MisbehaviourMsg => FreezeSound(json, start, p);
    case UpdateMsg(message) =>
      var r := UpdateState(h, seals, p.store, message);
      if r.Ok? {
        UpdatedKept(h, seals, json, p.store, p.log, message);
        StepKeeps(h, seals, ParamsOf(start.client), start.client.genesisCommitteeRoot, History(p.store.finality, p.log),
                  message[..JOURNAL_LEN], message[JOURNAL_LEN..]);
        UpdateSound(json, start, p, r.value);
      }
  }

  lemma UpdatedKept(h: Hash, seals: SealCheck, json: Json, s: Store, log: seq<Journal>, message: Bytes)
    requires UpdateState(h, seals, s, message).Ok?
    ensures var j := UpdateState(h, seals, s, message).value;
      Step(h, seals, ParamsOf(s.client), History(s.finality, log), message[..JOURNAL_LEN], message[JOURNAL_LEN..])
      == History(Updated(json, s, j).finality, log + [j])
  {
  }

  /** In every run the copies match, the latest height is the greatest, and the committees are kept. */
  lemma {:induction false} PlaySound(h: Hash, seals: SealCheck, json: Json, client: ClientData, first: ConsensusData,
                                     checksum: Bytes, msgs: seq<Msg>)
    ensures var start := Instantiated(json, client, first, checksum);
      Sound(json, start, Play(h, seals, json, start, msgs))
  {
    var start := Instantiated(json, client, first, checksum);
    if msgs == [] {
      RunKeeps(h, seals, ParamsOf(start.client), start.client.genesisCommitteeRoot, []);
    } else {
      PlaySound(h, seals, json, client, first, checksum, msgs[..|msgs| - 1]);
      SudoSound(h, seals, json, start, Play(h, seals, json, start, msgs[..|msgs| - 1]), msgs[|msgs| - 1]);
    }
  }

  /** Frozen is absorbing: after misbehaviour nothing changes any more. */
  lemma {:induction false} FrozenForever(h: Hash, seals: SealCheck, json: Json, client: ClientData,
                                         first: ConsensusData,
                                         checksum: Bytes, msgs: seq<Msg>, n: nat)
    requires var start := Instantiated(json, client, first, checksum);
      n <= |msgs| && Play(h, seals, json, start, msgs[..n]).store.client.frozen
    ensures var start := Instantiated(json, client, first, checksum);
      Play(h, seals, json, start, msgs) == Play(h, seals, json, start, msgs[..n])
    decreases |msgs|
  {
    if n == |msgs| {
      assert msgs[..n] == msgs;
    } else {
      var before := msgs[..|msgs| - 1];
      assert before[..n] == msgs[..n];
      FrozenForever(h, seals, json, client, first, checksum, before, n);
      PlaySound(h, seals, json, client, first, checksum, before);
    }
  }

  // ---- Membership ----

  const IBC_PREFIX: Bytes := Ascii("ibc")

  /** The committed key of the IBC store's entry at `path`. */
  function StoreEntry(path: Bytes): Bytes {
    Ascii("storage:") + Ascii("ffffffffffffffffffffffffffffffffffffffff") + Ascii(":") + Hex(Ascii("ibc/") + Hex(path))
  }

  function VerifyEntry(h: Hash, s: Store, revision: nat, height: nat, proof: Bytes, path: seq<Bytes>,
                       value: Option<Bytes>)
    : Result<(), Refusal>
  {
    if s.client.frozen then Err(Frozen)
    else if revision != 0 then Err(WrongRevision)
    else if height !in s.consensus then Err(NoConsensusState)
    else if |path| != 2 || path[0] != IBC_PREFIX then Err(BadPath)
    else if Proves(h, s.consensus[height].stateRoot, EntryKey(h, path), value, proof) then Ok(())
    else Err(NotProven)
  }

  /** In one stored state, at one height, one path never has two answers: no two values, nor a value and absence. */
  lemma EntriesAgree(h: Hash, s: Store, height: nat, path: seq<Bytes>, v: Option<Bytes>, p: Bytes, w: Option<Bytes>,
                     q: Bytes,
                     xs: set<Bytes>)
    requires VerifyEntry(h, s, 0, height, p, path, v).Ok? && VerifyEntry(h, s, 0, height, q, path, w).Ok?
    requires EntryIn(h, path, v, p, xs) && EntryIn(h, path, w, q, xs)
    ensures v == w || Broken(h, xs)
  {
    OneAnswer(h, s.consensus[height].stateRoot, EntryKey(h, path), v, p, w, q, xs);
  }

  function EntryKey(h: Hash, path: seq<Bytes>): Word
    requires |path| == 2
  {
    TreeKey(h, Ascii("state"), StoreEntry(path[1]))
  }

  /** `xs` holds what checking an entry hashes. */
  ghost predicate EntryIn(h: Hash, path: seq<Bytes>, value: Option<Bytes>, proof: Bytes, xs: set<Bytes>) {
    |path| == 2 ==> RunIn(h, EntryKey(h, path), value, proof, xs)
  }

  /** What the key of an entry hashes. */
  function EntryBytes(path: Bytes): Bytes {
    TREE_KEY_DOMAIN + LE(2, 5) + Ascii("state") + StoreEntry(path)
  }

  lemma EntryKeyIs(h: Hash, prefix: Bytes, path: Bytes)
    ensures EntryKey(h, [prefix, path]) == h(EntryBytes(path))
  {
    assert |Ascii("state")| == 5;
  }

  lemma EntryBytesInjective(p: Bytes, q: Bytes)
    requires EntryBytes(p) == EntryBytes(q)
    ensures p == q
  {
    var head := TREE_KEY_DOMAIN + LE(2, 5) + Ascii("state");
    SplitEqual(head, StoreEntry(p), head, StoreEntry(q));
    var mid := Ascii("storage:") + Ascii("ffffffffffffffffffffffffffffffffffffffff") + Ascii(":");
    SplitEqual(mid, Hex(Ascii("ibc/") + Hex(p)), mid, Hex(Ascii("ibc/") + Hex(q)));
    HexInjective(Ascii("ibc/") + Hex(p), Ascii("ibc/") + Hex(q));
    SplitEqual(Ascii("ibc/"), Hex(p), Ascii("ibc/"), Hex(q));
    HexInjective(p, q);
  }

  /** Different paths are at different keys, or the hash collides. */
  lemma EntryKeysDistinct(h: Hash, p: Bytes, q: Bytes, xs: set<Bytes>)
    requires EntryBytes(p) in xs && EntryBytes(q) in xs
    requires EntryKey(h, [IBC_PREFIX, p]) == EntryKey(h, [IBC_PREFIX, q])
    ensures p == q || Collides(h, xs)
  {
    EntryKeyIs(h, IBC_PREFIX, p);
    EntryKeyIs(h, IBC_PREFIX, q);
    if EntryBytes(p) == EntryBytes(q) { EntryBytesInjective(p, q); }
  }

  /** A frozen client verifies nothing, and no client a height it has no state for or a path of another prefix. */
  lemma VerifiesOnlyStored(h: Hash, s: Store, revision: nat, height: nat, proof: Bytes, path: seq<Bytes>,
                           value: Option<Bytes>)
    requires VerifyEntry(h, s, revision, height, proof, path, value).Ok?
    ensures !s.client.frozen && revision == 0 && height in s.consensus && |path| == 2 && path[0] == IBC_PREFIX
  {
  }

  /**
   * Under the root of a committed state, a path has exactly that state's answer:
   * what is accepted is what is stored there, and what is stored is accepted with
   * the proof served for it, or the hash is broken.
   */
  lemma EntryIsCommitted(h: Hash, s: Store, height: nat, p: Bytes, value: Option<Bytes>, proof: Bytes,
                         history: seq<Trie.Change>, xs: set<Bytes>)
    requires !s.client.frozen && height in s.consensus && s.consensus[height].stateRoot == Trie.Root(h, Trie.Commit(history))
    requires Trie.TrieIn(h, Trie.Commit(history), xs) && RunIn(h, h(EntryBytes(p)), value, proof, xs)
    ensures var held := Trie.State(history, h(EntryBytes(p)));
      var served := Encode(Trie.Prove(h, Trie.Commit(history), h(EntryBytes(p)), 0));
      || Broken(h, xs)
      || ( && (VerifyEntry(h, s, 0, height, proof, [IBC_PREFIX, p], value).Ok? ==> value == held)
           && VerifyEntry(h, s, 0, height, served, [IBC_PREFIX, p], held).Ok?)
  {
    EntryKeyIs(h, IBC_PREFIX, p);
    Trie.AcceptedIsCommitted(h, history, h(EntryBytes(p)), value, proof, xs);
  }

  // ---- Heights over a run ----

  /** The last accepted checkpoint of a state height. */
  function LastAt(log: seq<Journal>, height: nat): Option<Journal> {
    if log == [] then None
    else if log[|log| - 1].stateHeight == height then Some(log[|log| - 1])
    else LastAt(log[..|log| - 1], height)
  }

  /** What is stored at a height: the last accepted checkpoint of it, or what was there from the start. */
  ghost predicate StoredIsLast(start: Store, p: Progress, height: nat) {
    match LastAt(p.log, height)
    case Some(j) => height in p.store.consensus && IsStateOf(p.store.consensus[height], height, j)
    case None =>
      && (height in p.store.consensus <==> height in start.consensus)
      && (height in start.consensus ==> p.store.consensus[height] == start.consensus[height])
  }

  lemma {:induction false} PlayStoresLast(h: Hash, seals: SealCheck, json: Json, start: Store, msgs: seq<Msg>,
                                          height: nat)
    ensures StoredIsLast(start, Play(h, seals, json, start, msgs), height)
  {
    if msgs != [] {
      PlayStoresLast(h, seals, json, start, msgs[..|msgs| - 1], height);
      SudoStoresLast(h, seals, json, start, Play(h, seals, json, start, msgs[..|msgs| - 1]), msgs[|msgs| - 1], height);
    }
  }

  lemma SudoStoresLast(h: Hash, seals: SealCheck, json: Json, start: Store, p: Progress, m: Msg, height: nat)
    requires StoredIsLast(start, p, height)
    ensures StoredIsLast(start, Sudo(h, seals, json, p, m), height)
  {
    match m
    case MisbehaviourMsg =>
    case UpdateMsg(message) =>
      var r := UpdateState(h, seals, p.store, message);
      if r.Ok? { UpdatedStoresLast(json, start, p, r.value, height); }
  }

  lemma UpdatedStoresLast(json: Json, start: Store, p: Progress, j: Journal, height: nat)
    requires StoredIsLast(start, p, height)
    ensures StoredIsLast(start, Progress(Updated(json, p.store, j), p.log + [j]), height)
  {
    var log := p.log + [j];
    assert log[..|log| - 1] == p.log && log[|log| - 1] == j;
    assert LastAt(log, height) == if j.stateHeight == height then Some(j) else LastAt(p.log, height);
  }

  /** Accepted checkpoints are only added. */
  lemma {:induction false} LogGrows(h: Hash, seals: SealCheck, json: Json, start: Store, msgs: seq<Msg>, n: nat)
    requires n <= |msgs|
    ensures Play(h, seals, json, start, msgs[..n]).log <= Play(h, seals, json, start, msgs).log
    decreases |msgs|
  {
    if n == |msgs| {
      assert msgs[..n] == msgs;
    } else {
      var before := msgs[..|msgs| - 1];
      assert before[..n] == msgs[..n];
      LogGrows(h, seals, json, start, before, n);
    }
  }

  /** A checkpoint accepted after the first `n` has the height but another root than `root`. */
  ghost predicate RewrittenAfter(log: seq<Journal>, n: nat, height: nat, root: Word) {
    exists i :: n <= i < |log| && log[i].stateHeight == height && log[i].stateRoot != root
  }

  lemma {:induction false} LastIsLater(log: seq<Journal>, n: nat, height: nat)
    requires n <= |log|
    ensures LastAt(log, height) == LastAt(log[..n], height)
      || exists i :: n <= i < |log| && log[i].stateHeight == height && LastAt(log, height) == Some(log[i])
    decreases |log|
  {
    if n == |log| {
      assert log[..n] == log;
    } else if log[|log| - 1].stateHeight != height {
      var before := log[..|log| - 1];
      assert before[..n] == log[..n];
      LastIsLater(before, n, height);
      if LastAt(before, height) != LastAt(before[..n], height) {
        var i :| n <= i < |before| && before[i].stateHeight == height && LastAt(before, height) == Some(before[i]);
        assert log[i] == before[i];
      }
    }
  }

  /** The root stored at a height stays, unless a later checkpoint of that height brought another. */
  lemma RootStays(h: Hash, seals: SealCheck, json: Json, start: Store, msgs: seq<Msg>, n: nat, height: nat)
    requires n <= |msgs| && height in Play(h, seals, json, start, msgs[..n]).store.consensus
    ensures var a, b := Play(h, seals, json, start, msgs[..n]), Play(h, seals, json, start, msgs);
      && height in b.store.consensus
      && (b.store.consensus[height].stateRoot == a.store.consensus[height].stateRoot
          || RewrittenAfter(b.log, |a.log|, height, a.store.consensus[height].stateRoot))
  {
    var a, b := Play(h, seals, json, start, msgs[..n]), Play(h, seals, json, start, msgs);
    PlayStoresLast(h, seals, json, start, msgs[..n], height);
    PlayStoresLast(h, seals, json, start, msgs, height);
    LogGrows(h, seals, json, start, msgs, n);
    LastIsLater(b.log, |a.log|, height);
    assert b.log[..|a.log|] == a.log;
  }

  /**
   * Over every run, an answer accepted at a height and one accepted later at
   * that height agree, unless a checkpoint accepted in between rewrote the height
   * with another root, or the hash is broken.
   */
  lemma EntriesAgreeOverRun(h: Hash, seals: SealCheck, json: Json, start: Store, msgs: seq<Msg>, n: nat, height: nat,
                            path: seq<Bytes>, v: Option<Bytes>, p: Bytes, w: Option<Bytes>, q: Bytes, xs: set<Bytes>)
    requires n <= |msgs|
    requires VerifyEntry(h, Play(h, seals, json, start, msgs[..n]).store, 0, height, p, path, v).Ok?
    requires VerifyEntry(h, Play(h, seals, json, start, msgs).store, 0, height, q, path, w).Ok?
    requires EntryIn(h, path, v, p, xs) && EntryIn(h, path, w, q, xs)
    ensures var a, b := Play(h, seals, json, start, msgs[..n]), Play(h, seals, json, start, msgs);
      v == w || Broken(h, xs) || RewrittenAfter(b.log, |a.log|, height, a.store.consensus[height].stateRoot)
  {
    RootStays(h, seals, json, start, msgs, n, height);
    var a, b := Play(h, seals, json, start, msgs[..n]).store, Play(h, seals, json, start, msgs).store;
    if b.consensus[height].stateRoot == a.consensus[height].stateRoot {
      OneAnswer(h, a.consensus[height].stateRoot, EntryKey(h, path), v, p, w, q, xs);
    }
  }
}
