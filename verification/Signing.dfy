// What an open grant asks of an action besides its limits: a target under the
// grant's target root, and signatures by keys under its key root, two of
// different operators above the cosign threshold.
module Signing {
  import opened Encoding
  import opened Hashing
  import opened Agent
  import opened Merkle

  datatype Signer = Signer(key: Bytes, operator: Bytes, proof: seq<Bytes>, signature: Bytes)

  /** Whether a P-256 signature over a digest verifies under a key. */
  type P256 = (Word, Bytes, Bytes) -> bool

  /** Half the order of P-256: signatures above it are refused. */
  const HALF_N: Word := [0x7f, 0xff, 0xff, 0xff, 0x80, 0x00, 0x00, 0x00, 0x7f, 0xff, 0xff, 0xff, 0xff, 0xff, 0xff, 0xff,
                         0xde, 0x73, 0x7d, 0x56, 0xd3, 0x8b, 0xcf, 0x42, 0x79, 0xdc, 0xe5, 0x61, 0x7e, 0x31, 0x92, 0xa8]

  predicate AllWords(ps: seq<Bytes>) { forall i :: 0 <= i < |ps| ==> |ps[i]| == 32 }

  function AsWords(ps: seq<Bytes>): seq<Word>
    requires AllWords(ps)
  {
    ps
  }

  /** `content` is proven a leaf under `root`. */
  predicate ProvenLeaf(h: Hash, root: Word, content: Bytes, proof: seq<Bytes>) {
    AllWords(proof) && Fold(h, h(LeafBytes(content)), AsWords(proof)) == root
  }

  predicate TargetOk(h: Hash, g: Grant, target: Bytes, selector: Bytes, proof: seq<Bytes>) {
    g.targetsRoot != ZERO ==> ProvenLeaf(h, g.targetsRoot, TargetContent(target, selector), proof)
  }

  predicate SignerOk(h: Hash, p256: P256, g: Grant, digest: Word, s: Signer) {
    && |s.signature| == 64 && Le(s.signature[32..], HALF_N)
    && p256(digest, s.signature, s.key) && |s.key| == 65
    && ProvenLeaf(h, g.keysRoot, KeyContent(s.key, s.operator), s.proof)
  }

  function Need(g: Grant, amount: nat): nat { if amount > g.cosignAbove then 2 else 1 }

  predicate SignersOk(h: Hash, p256: P256, g: Grant, digest: Word, signers: seq<Signer>, amount: nat) {
    && |signers| >= Need(g, amount)
    && (forall i :: 0 <= i < Need(g, amount) ==> SignerOk(h, p256, g, digest, signers[i]))
    && (Need(g, amount) == 2 ==> signers[0].operator != signers[1].operator)
  }

  /** One signer, as an account checks it. */
  method CheckSigner(h: Hash, p256: P256, g: Grant, digest: Word, s: Signer) returns (ok: bool)
    ensures ok <==> SignerOk(h, p256, g, digest, s)
  {
    if |s.signature| != 64 || !Le(s.signature[32..], HALF_N) { return false; }
    if !p256(digest, s.signature, s.key) || |s.key| != 65 || !AllWords(s.proof) { return false; }
    ok := MerkleVerify(h, g.keysRoot, h([0] + (s.key + s.operator)), AsWords(s.proof));
  }

  /** The signers an action needs, checked in order; the second must be another operator's. */
  method CheckSigners(h: Hash, p256: P256, g: Grant, digest: Word, signers: seq<Signer>, amount: nat) returns (ok: bool)
    ensures ok <==> SignersOk(h, p256, g, digest, signers, amount)
  {
    var need := if amount > g.cosignAbove then 2 else 1;
    if |signers| < need { return false; }
    for i := 0 to need
      invariant forall k :: 0 <= k < i ==> SignerOk(h, p256, g, digest, signers[k])
      invariant i == 2 ==> signers[0].operator != signers[1].operator
    {
      var good := CheckSigner(h, p256, g, digest, signers[i]);
      if !good { return false; }
      if i == 1 && signers[0].operator == signers[i].operator { return false; }
    }
    return true;
  }

  /** `xs` holds what checking a leaf proof hashes. */
  ghost predicate LeafProofIn(h: Hash, content: Bytes, proof: seq<Bytes>, xs: set<Bytes>) {
    AllWords(proof) ==> LeafBytes(content) in xs && FoldIn(h, h(LeafBytes(content)), AsWords(proof), xs)
  }

  /** `xs` holds what checking the first `n` signers' leaf proofs hashes. */
  ghost predicate SignerProofsIn(h: Hash, signers: seq<Signer>, n: nat, xs: set<Bytes>) {
    forall i :: 0 <= i < n && i < |signers| && |signers[i].key| == 65 ==>
      LeafProofIn(h, KeyContent(signers[i].key, signers[i].operator), signers[i].proof, xs)
  }

  /** A key the tree commits to, with its operator, signed the digest; the signature is in its low form. */
  ghost predicate SignedBy(p256: P256, keys: Tree, digest: Word, k: PublicKey, o: Bytes, s: Bytes) {
    && IsLeaf(keys, KeyContent(k, o)) && p256(digest, s, k)
    && |s| == 64 && FromBE(s[32..]) <= FromBE(HALF_N)
  }

  lemma SignerIsCommitted(h: Hash, p256: P256, g: Grant, digest: Word, s: Signer, keys: Tree, xs: set<Bytes>)
    requires SignerOk(h, p256, g, digest, s) && g.keysRoot == Root(h, keys) && TreeIn(h, keys, xs)
    requires LeafProofIn(h, KeyContent(s.key, s.operator), s.proof, xs)
    ensures Collides(h, xs) || SignedBy(p256, keys, digest, s.key, s.operator, s.signature)
  {
    AcceptedIsLeaf(h, keys, KeyContent(s.key, s.operator), AsWords(s.proof), xs);
    LeIsOrder(s.signature[32..], HALF_N);
  }

  /** Every action, of whatever amount, carries a valid signature by a key the grant committed to. */
  lemma SignedByOne(h: Hash, p256: P256, g: Grant, digest: Word, signers: seq<Signer>, amount: nat, keys: Tree,
                    xs: set<Bytes>)
    requires SignersOk(h, p256, g, digest, signers, amount)
    requires g.keysRoot == Root(h, keys) && TreeIn(h, keys, xs) && SignerProofsIn(h, signers, 2, xs)
    ensures Collides(h, xs) || exists k: PublicKey, o, s :: SignedBy(p256, keys, digest, k, o, s)
  {
    var a := signers[0];
    assert SignerOk(h, p256, g, digest, a);
    SignerIsCommitted(h, p256, g, digest, a, keys, xs);
    var k: PublicKey := a.key;
    assert Collides(h, xs) || SignedBy(p256, keys, digest, k, a.operator, a.signature);
  }

  /** One above the threshold carries two, by keys of different operators. */
  lemma CosignedByTwo(h: Hash, p256: P256, g: Grant, digest: Word, signers: seq<Signer>, amount: nat, keys: Tree,
                      xs: set<Bytes>)
    requires SignersOk(h, p256, g, digest, signers, amount) && amount > g.cosignAbove
    requires g.keysRoot == Root(h, keys) && TreeIn(h, keys, xs) && SignerProofsIn(h, signers, 2, xs)
    ensures Collides(h, xs) ||
      exists k1: PublicKey, o1, s1, k2: PublicKey, o2, s2 ::
        o1 != o2 && SignedBy(p256, keys, digest, k1, o1, s1) && SignedBy(p256, keys, digest, k2, o2, s2)
  {
    var a, b := signers[0], signers[1];
    assert SignerOk(h, p256, g, digest, a) && SignerOk(h, p256, g, digest, b);
    SignerIsCommitted(h, p256, g, digest, a, keys, xs);
    SignerIsCommitted(h, p256, g, digest, b, keys, xs);
    var k1: PublicKey, k2: PublicKey := a.key, b.key;
    if !Collides(h, xs) {
      assert SignedBy(p256, keys, digest, k1, a.operator, a.signature);
      assert SignedBy(p256, keys, digest, k2, b.operator, b.signature);
    }
  }

  /** The signer a committed key makes, with its place in the tree. */
  function SignerOf(h: Hash, keys: Tree, k: PublicKey, o: Bytes, s: Bytes): Signer
    requires IsLeaf(keys, KeyContent(k, o))
  {
    Signer(k, o, ProofOf(h, keys, KeyContent(k, o)), s)
  }

  lemma CommittedIsSigner(h: Hash, p256: P256, g: Grant, digest: Word, keys: Tree, k: PublicKey, o: Bytes, s: Bytes)
    requires g.keysRoot == Root(h, keys) && SignedBy(p256, keys, digest, k, o, s)
    ensures SignerOk(h, p256, g, digest, SignerOf(h, keys, k, o, s))
  {
    LeafIsAccepted(h, keys, KeyContent(k, o));
    LeIsOrder(s[32..], HALF_N);
  }

  /** At or below the threshold one committed key's signature is enough. */
  lemma OneIsEnough(h: Hash, p256: P256, g: Grant, digest: Word, amount: nat, keys: Tree, k: PublicKey, o: Bytes, s: Bytes)
    requires g.keysRoot == Root(h, keys) && amount <= g.cosignAbove && SignedBy(p256, keys, digest, k, o, s)
    ensures SignersOk(h, p256, g, digest, [SignerOf(h, keys, k, o, s)], amount)
  {
    CommittedIsSigner(h, p256, g, digest, keys, k, o, s);
  }

  /** Above it two are, of different operators. */
  lemma TwoAreEnough(h: Hash, p256: P256, g: Grant, digest: Word, amount: nat, keys: Tree, k: PublicKey, o: Bytes,
                     s: Bytes, k': PublicKey, o': Bytes, s': Bytes)
    requires g.keysRoot == Root(h, keys) && o != o'
    requires SignedBy(p256, keys, digest, k, o, s) && SignedBy(p256, keys, digest, k', o', s')
    ensures SignersOk(h, p256, g, digest, [SignerOf(h, keys, k, o, s), SignerOf(h, keys, k', o', s')], amount)
  {
    CommittedIsSigner(h, p256, g, digest, keys, k, o, s);
    CommittedIsSigner(h, p256, g, digest, keys, k', o', s');
  }

  /** The target and function of an action that passes are one pair the grant committed to. */
  lemma TargetCommitted(h: Hash, g: Grant, action: Bytes, proof: seq<Bytes>, tree: Tree, targets: set<Target>,
                        xs: set<Bytes>)
    requires DecodeAction(action).Some? && g.targetsRoot != ZERO
    requires var a := DecodeAction(action).value;
      TargetOk(h, g, a.target, a.selector, proof) && LeafProofIn(h, TargetContent(a.target, a.selector), proof, xs)
    requires g.targetsRoot == Root(h, tree) && Commits(tree, targets) && TreeIn(h, tree, xs)
    ensures var a := DecodeAction(action).value; Target(a.target, a.selector) in targets || Collides(h, xs)
  {
    var a := DecodeAction(action).value;
    ActionEncodeDecode(action);
    AcceptedIsLeaf(h, tree, TargetContent(a.target, a.selector), AsWords(proof), xs);
    if !Collides(h, xs) {
      LeafIsCommitted(tree, targets, Target(a.target, a.selector));
    }
  }
}
