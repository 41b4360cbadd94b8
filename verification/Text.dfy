// The little text formats the authorization layer reads: decimal amounts,
// hexadecimal ids, class-qualified resources and dotted action names.
module Text {
  import opened Encoding

  /** What is before and after the first `sep`, if there is one. */
  function SplitOnce(s: string, sep: char): Option<(string, string)> {
    if s == "" then None
    else if s[0] == sep then Some(("", s[1..]))
    else match SplitOnce(s[1..], sep)
      case None => None
      case Some(p) => Some(([s[0]] + p.0, p.1))
  }

  /** A qualified name splits where it was joined. */
  lemma {:induction false} SplitJoined(a: string, sep: char, b: string)
    requires sep !in a
    ensures SplitOnce(a + [sep] + b, sep) == Some((a, b))
  {
    var s := a + [sep] + b;
    if a == "" {
      assert s[1..] == b;
    } else {
      assert s[1..] == a[1..] + [sep] + b;
      SplitJoined(a[1..], sep, b);
      assert s[0] == a[0] != sep;
      assert a == [a[0]] + a[1..];
    }
  }

  predicate IsDigit(c: char) { '0' <= c <= '9' }

  function Decimal(s: string): nat
    requires forall c :: c in s ==> IsDigit(c)
  {
    if s == "" then 0 else
    assert IsDigit(s[|s| - 1]);
    Decimal(s[..|s| - 1]) * 10 + (s[|s| - 1] as int - '0' as int)
  }

  /** A 128-bit decimal: digits, perhaps after a plus sign. */
  function ParseU128(s: string): Option<nat> {
    var digits := if s != "" && s[0] == '+' then s[1..] else s;
    if digits == "" || exists c :: c in digits && !IsDigit(c) then None
    else if Decimal(digits) < U128 then Some(Decimal(digits)) else None
  }

  function HexValue(c: char): Option<nat> {
    if '0' <= c <= '9' then Some(c as int - '0' as int)
    else if 'a' <= c <= 'f' then Some(c as int - 'a' as int + 10)
    else if 'A' <= c <= 'F' then Some(c as int - 'A' as int + 10)
    else None
  }

  function UnHex(s: string): Option<Bytes> {
    if s == "" then Some([]) else if |s| < 2 then None else PutFirst(HexValue(s[0]), HexValue(s[1]), UnHex(s[2..]))
  }

  function PutFirst(high: Option<nat>, low: Option<nat>, rest: Option<Bytes>): Option<Bytes> {
    if high.None? || low.None? || rest.None? then None
    else Some([(high.value * 16 + low.value) % 256] + rest.value)
  }

  function TrimHexMark(s: string): string {
    if |s| >= 2 && s[0] == '0' && s[1] == 'x' then TrimHexMark(s[2..]) else s
  }

  function Digit(n: nat): char
    requires n < 16
  {
    "0123456789abcdef"[n]
  }

  /** Bytes as lower-case hexadecimal text. */
  function HexText(b: Bytes): string {
    if b == [] then "" else [Digit(b[0] / 16), Digit(b[0] % 16)] + HexText(b[1..])
  }

  lemma DigitValue(n: nat)
    requires n < 16
    ensures HexValue(Digit(n)) == Some(n)
  {
    if n < 10 { assert Digit(n) as int == '0' as int + n; } else { assert Digit(n) as int == 'a' as int + n - 10; }
  }

  lemma {:induction false} UnHexOfText(b: Bytes)
    ensures UnHex(HexText(b)) == Some(b) && TrimHexMark(HexText(b)) == HexText(b)
  {
    if b != [] {
      var s := HexText(b);
      UnHexOfText(b[1..]);
      DigitValue(b[0] / 16);
      DigitValue(b[0] % 16);
      assert s[2..] == HexText(b[1..]);
      assert s[0] == Digit(b[0] / 16) && s[1] == Digit(b[0] % 16);
      assert UnHex(s) == PutFirst(Some(b[0] / 16), Some(b[0] % 16), Some(b[1..]));
      PutFirstOf(b);
    }
  }

  lemma PutFirstOf(b: Bytes)
    requires b != []
    ensures PutFirst(Some(b[0] / 16), Some(b[0] % 16), Some(b[1..])) == Some(b)
  {
    assert ((b[0] / 16) * 16 + b[0] % 16) % 256 == b[0];
    assert b == [b[0]] + b[1..];
  }

  // ---- Action names ----

  predicate IsWordChar(c: char) {
    'a' <= c <= 'z' || 'A' <= c <= 'Z' || '0' <= c <= '9' || c == '_' || c == '-'
  }

  predicate IsComponent(s: string) { s != "" && forall c :: c in s ==> IsWordChar(c) }

  /** The grammar: a component, or a component, a dot and a name. */
  predicate IsActionName(s: string)
    decreases |s|
  {
    match SplitOnce(s, '.')
    case None => IsComponent(s)
    case Some(p) =>
      SplitShrinks(s, '.');
      IsComponent(p.0) && IsActionName(p.1)
  }

  lemma {:induction false} SplitShrinks(s: string, sep: char)
    requires SplitOnce(s, sep).Some?
    ensures var p := SplitOnce(s, sep).value; s == p.0 + [sep] + p.1 && |p.1| < |s| && sep !in p.0
  {
    if s[0] != sep {
      SplitShrinks(s[1..], sep);
      assert s == [s[0]] + s[1..];
    }
  }

  lemma {:induction false} NoSplit(s: string, sep: char)
    requires SplitOnce(s, sep).None?
    ensures sep !in s
  {
    if s != "" { NoSplit(s[1..], sep); }
  }

  /** No dot first, last or after another, and nothing but dots and word characters. */
  predicate DotsApart(s: string) {
    && s != "" && s[0] != '.' && s[|s| - 1] != '.'
    && (forall i :: 0 <= i < |s| ==> s[i] == '.' || IsWordChar(s[i]))
    && (forall i :: 0 < i < |s| ==> s[i - 1] != '.' || s[i] != '.')
  }

  lemma DotsApartJoined(a: string, b: string)
    requires '.' !in a
    ensures DotsApart(a + ['.'] + b) <==> IsComponent(a) && DotsApart(b)
  {
    var s := a + ['.'] + b;
    var n := |a| + 1;
    assert s[|a|] == '.' && s[n..] == b;
    assert forall i :: 0 <= i < |a| ==> s[i] == a[i] != '.';
    assert forall i :: 0 <= i < |b| ==> b[i] == s[n + i];
    assert (b == "" ==> s[|s| - 1] == '.') && (a == "" ==> s[0] == '.');
    if DotsApart(s) {
      assert s[n - 1] == '.' && s[n] == b[0];
      forall i | 0 < i < |b|
        ensures b[i - 1] != '.' || b[i] != '.'
      {
        assert s[n + i - 1] != '.' || s[n + i] != '.';
      }
    }
  }

  /** What the one pass over the characters looks for is the grammar. */
  lemma {:induction false} NameIsDotsApart(s: string)
    ensures IsActionName(s) <==> DotsApart(s)
    decreases |s|
  {
    match SplitOnce(s, '.')
    case None =>
      NoSplit(s, '.');
    case Some(p) =>
      SplitShrinks(s, '.');
      NameIsDotsApart(p.1);
      DotsApartJoined(p.0, p.1);
  }

  method CheckActionName(s: string) returns (ok: bool)
    ensures ok <==> IsActionName(s)
  {
    NameIsDotsApart(s);
    if s == "" { return false; }
    if s[0] == '.' || s[|s| - 1] == '.' { return false; }
    var prevDot := false;
    for i := 0 to |s|
      invariant prevDot <==> i > 0 && s[i - 1] == '.'
      invariant forall k :: 0 <= k < i ==> s[k] == '.' || IsWordChar(s[k])
      invariant forall k :: 0 < k < i ==> s[k - 1] != '.' || s[k] != '.'
    {
      if s[i] == '.' {
        if prevDot { return false; }
        prevDot := true;
      } else if IsWordChar(s[i]) {
        prevDot := false;
      } else {
        return false;
      }
    }
    return true;
  }
}
