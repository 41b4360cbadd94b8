// Fixed binary layouts: a record as consecutive fields of given widths, and
// the cursor that reads them.
module Layout {
  import opened Encoding

  function Sum(widths: seq<nat>): nat {
    if widths == [] then 0 else widths[0] + Sum(widths[1..])
  }

  lemma {:induction false} SumAppend(a: seq<nat>, b: seq<nat>)
    ensures Sum(a + b) == Sum(a) + Sum(b)
  {
    if a == [] {
      assert a + b == b;
    } else {
      assert (a + b)[1..] == a[1..] + b;
      SumAppend(a[1..], b);
    }
  }

  lemma SumOfFour(a: nat, b: nat, c: nat, d: nat)
    ensures Sum([a, b, c, d]) == a + b + c + d
  {
    assert [d][1..] == [];
    assert Sum([d]) == d + Sum([]);
    assert [c, d][1..] == [d];
    assert Sum([c, d]) == c + Sum([d]);
    assert [b, c, d][1..] == [c, d];
    assert Sum([b, c, d]) == b + Sum([c, d]);
    assert [a, b, c, d][1..] == [b, c, d];
    assert Sum([a, b, c, d]) == a + Sum([b, c, d]);
  }

  /** The fields of `b`, in order. */
  function Fields(widths: seq<nat>, b: Bytes): (fs: seq<Bytes>)
    requires |b| == Sum(widths)
    ensures Shaped(widths, fs)
  {
    if widths == [] then [] else [b[..widths[0]]] + Fields(widths[1..], b[widths[0]..])
  }

  predicate Shaped(widths: seq<nat>, fs: seq<Bytes>) {
    |fs| == |widths| && forall i :: 0 <= i < |fs| ==> |fs[i]| == widths[i]
  }

  function Join(fs: seq<Bytes>): Bytes {
    if fs == [] then [] else fs[0] + Join(fs[1..])
  }

  lemma {:induction false} JoinLength(widths: seq<nat>, fs: seq<Bytes>)
    requires Shaped(widths, fs)
    ensures |Join(fs)| == Sum(widths)
  {
    if fs != [] { JoinLength(widths[1..], fs[1..]); }
  }

  /** Fields written one after the other are read back. */
  lemma {:induction false} FieldsOfJoin(widths: seq<nat>, fs: seq<Bytes>)
    requires Shaped(widths, fs)
    ensures |Join(fs)| == Sum(widths) && Fields(widths, Join(fs)) == fs
  {
    JoinLength(widths, fs);
    if fs != [] {
      FieldsOfJoin(widths[1..], fs[1..]);
      assert Join(fs)[..widths[0]] == fs[0] && Join(fs)[widths[0]..] == Join(fs[1..]);
    }
  }

  /** The fields read are all there was. */
  lemma {:induction false} JoinOfFields(widths: seq<nat>, b: Bytes)
    requires |b| == Sum(widths)
    ensures Join(Fields(widths, b)) == b
  {
    if widths != [] {
      JoinOfFields(widths[1..], b[widths[0]..]);
      assert Fields(widths, b)[1..] == Fields(widths[1..], b[widths[0]..]);
    }
  }

  lemma JoinEight(f: seq<Bytes>)
    requires |f| == 8
    ensures Join(f) == f[0] + (f[1] + (f[2] + (f[3] + (f[4] + (f[5] + (f[6] + f[7]))))))
  {
    assert Join(f[7..]) == f[7] + Join([]) by { assert f[7..][1..] == []; }
    assert f[6..][1..] == f[7..] && f[5..][1..] == f[6..] && f[4..][1..] == f[5..] && f[3..][1..] == f[4..];
    assert f[2..][1..] == f[3..] && f[1..][1..] == f[2..];
    assert Join(f[6..]) == f[6] + f[7];
    assert Join(f[4..]) == f[4] + (f[5] + (f[6] + f[7]));
    assert Join(f[2..]) == f[2] + (f[3] + (f[4] + (f[5] + (f[6] + f[7]))));
  }

  /** Equally shaped records with equal bytes have equal fields. */
  lemma JoinInjective(widths: seq<nat>, fs: seq<Bytes>, gs: seq<Bytes>)
    requires Shaped(widths, fs) && Shaped(widths, gs) && Join(fs) == Join(gs)
    ensures fs == gs
  {
    FieldsOfJoin(widths, fs);
    FieldsOfJoin(widths, gs);
  }

  /** Fields `fs` are read, and `rest` holds those from field `i` on. */
  ghost predicate Reading(widths: seq<nat>, b: Bytes, i: nat, fs: seq<Bytes>, rest: Bytes)
    requires |b| == Sum(widths) && i <= |widths|
  {
    |rest| == Sum(widths[i..]) && Fields(widths, b) == fs + Fields(widths[i..], rest)
  }

  lemma ReadOn(widths: seq<nat>, b: Bytes, i: nat, fs: seq<Bytes>, rest: Bytes)
    requires |b| == Sum(widths) && i < |widths| && Reading(widths, b, i, fs, rest)
    ensures widths[i] <= |rest| && Reading(widths, b, i + 1, fs + [rest[..widths[i]]], rest[widths[i]..])
  {
    assert widths[i..][1..] == widths[i + 1..] && widths[i..][0] == widths[i];
    var head, more := [rest[..widths[i]]], Fields(widths[i + 1..], rest[widths[i]..]);
    assert Fields(widths[i..], rest) == head + more;
    assert fs + (head + more) == (fs + head) + more;
  }

  /** A cursor over bytes: each take hands out the next ones. */
  class Reader {
    var rest: Bytes

    constructor (b: Bytes)
      ensures rest == b
    {
      rest := b;
    }

    method Take(n: nat) returns (head: Bytes)
      requires n <= |rest|
      modifies this
      ensures head == old(rest)[..n] && rest == old(rest)[n..]
    {
      head, rest := rest[..n], rest[n..];
    }
  }

  /** Reading a whole record with the cursor. */
  method ReadFields(widths: seq<nat>, b: Bytes) returns (fs: seq<Bytes>)
    requires |b| == Sum(widths)
    ensures fs == Fields(widths, b)
  {
    var r := new Reader(b);
    fs := [];
    assert widths[0..] == widths && [] + Fields(widths, b) == Fields(widths, b);
    for i := 0 to |widths|
      invariant Reading(widths, b, i, fs, r.rest)
    {
      ReadOn(widths, b, i, fs, r.rest);
      var head := r.Take(widths[i]);
      fs := fs + [head];
    }
    assert widths[|widths|..] == [];
    assert fs + [] == fs;
  }
}
