// The bridge's committees: who may be one, and when enough of it signed.
module Quorum {
  import opened Encoding
  import opened Sequences

  /** A member: the 20-byte address of its signing key. */
  type Member = b: Bytes | |b| == 20 witness Zeros(20)

  /** Whose signature over a digest this is, if it is one at all. */
  type Recover = (Word, Bytes) -> Option<Member>

  /** More than half of distinct members, and no more than there are. */
  predicate CommitteeOk(c: seq<Member>, threshold: nat) {
    2 * threshold > |c| && threshold <= |c| && Distinct(c)
  }

  /** A committee, compared member against member. */
  method CheckCommittee(c: seq<Member>, threshold: nat) returns (ok: bool)
    ensures ok <==> CommitteeOk(c, threshold)
  {
    var n := |c|;
    if n == 0 || threshold <= n / 2 || threshold > n { return false; }
    for i := 0 to n
      invariant forall a, b :: 0 <= a < i && a < b < n ==> c[a] != c[b]
    {
      for j := i + 1 to n
        invariant forall b :: i < b < j ==> c[i] != c[b]
      {
        if c[i] == c[j] { return false; }
      }
    }
    return true;
  }

  /** The members of `committee` among the signers. */
  ghost function Signed(recover: Recover, committee: seq<Member>, digest: Word, signatures: seq<Bytes>): set<Member> {
    set i | 0 <= i < |signatures| && recover(digest, signatures[i]).Some? && recover(digest, signatures[i]).value in committee
      :: recover(digest, signatures[i]).value
  }

  /** Every signature is one, and enough distinct members are among the signers. */
  ghost predicate Enough(recover: Recover, committee: seq<Member>, threshold: nat, digest: Word,
                         signatures: seq<Bytes>) {
    && (forall i :: 0 <= i < |signatures| ==> recover(digest, signatures[i]).Some?)
    && |Signed(recover, committee, digest, signatures)| >= threshold
  }

  lemma SignedMore(recover: Recover, committee: seq<Member>, digest: Word, signatures: seq<Bytes>, n: nat)
    requires n < |signatures| && recover(digest, signatures[n]).Some?
    ensures var who := recover(digest, signatures[n]).value;
      Signed(recover, committee, digest, signatures[..n + 1])
      == Signed(recover, committee, digest, signatures[..n]) + if who in committee then {who} else {}
  {
    var who := recover(digest, signatures[n]).value;
    var less, more := signatures[..n], signatures[..n + 1];
    var a, b := Signed(recover, committee, digest, less), Signed(recover, committee, digest, more);
    forall x | x in b
      ensures x in a + if who in committee then {who} else {}
    {
      var i :| 0 <= i < |more| && recover(digest, more[i]).Some? && recover(digest, more[i]).value == x;
      if i < n { assert less[i] == more[i]; }
    }
    forall x | x in a
      ensures x in b
    {
      var i :| 0 <= i < |less| && recover(digest, less[i]).Some? && recover(digest, less[i]).value == x;
      assert less[i] == more[i];
    }
    assert more[n] == signatures[n];
  }

  /** Count the distinct members that signed, as the bridge does; none if a signature is not one. */
  method CountSigners(recover: Recover, committee: seq<Member>, digest: Word, signatures: seq<Bytes>)
    returns (r: Option<nat>)
    ensures r.Some? <==> forall i :: 0 <= i < |signatures| ==> recover(digest, signatures[i]).Some?
    ensures r.Some? ==> r.value == |Signed(recover, committee, digest, signatures)|
  {
    var seen: seq<Member> := [];
    for n := 0 to |signatures|
      invariant forall i :: 0 <= i < n ==> recover(digest, signatures[i]).Some?
      invariant Distinct(seen)
      invariant Elements(seen) == Signed(recover, committee, digest, signatures[..n])
    {
      var who := recover(digest, signatures[n]);
      if who.None? { return None; }
      SignedMore(recover, committee, digest, signatures, n);
      if who.value in committee && who.value !in seen {
        ElementsMore(seen, who.value);
        seen := seen + [who.value];
      }
    }
    assert signatures[..|signatures|] == signatures;
    DistinctCount(seen);
    return Some(|seen|);
  }

  lemma {:induction false} Fewer<T>(a: set<T>, b: set<T>)
    requires a <= b
    ensures |a| <= |b|
  {
    assert b == a + (b - a);
  }

  /** Any two digests a committee signed share a signer. */
  lemma QuorumsMeet(recover: Recover, committee: seq<Member>, threshold: nat, d: Word, s: seq<Bytes>, d': Word,
                    s': seq<Bytes>)
    requires CommitteeOk(committee, threshold)
    requires Enough(recover, committee, threshold, d, s) && Enough(recover, committee, threshold, d', s')
    ensures exists i, j ::
      && 0 <= i < |s| && 0 <= j < |s'| && recover(d, s[i]) == recover(d', s'[j])
      && recover(d, s[i]).Some? && recover(d, s[i]).value in committee
  {
    var a, b := Signed(recover, committee, d, s), Signed(recover, committee, d', s');
    var all := Elements(committee);
    DistinctCount(committee);
    Fewer(a + b, all);
    assert a * b != {};
    var m :| m in a * b;
    var i :| 0 <= i < |s| && recover(d, s[i]).Some? && recover(d, s[i]).value == m;
    var j :| 0 <= j < |s'| && recover(d', s'[j]).Some? && recover(d', s'[j]).value == m;
    assert recover(d, s[i]) == recover(d', s'[j]);
  }
}
