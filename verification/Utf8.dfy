/** Incremental UTF-8 validation (src/chunker/structured_text/utf8.rs) against the encoding of section 3 of RFC 3629. */
module Utf8 {
  import opened Bytes

  datatype Fault = InvalidLeadByte | InvalidContinuation

  /** Continuation bytes still expected, and the range of the next one. */
  datatype Scan = Scan(remaining: nat, lo: nat, hi: nat)
  datatype Scanned = Next(scan: Scan, completed: bool) | Bad(fault: Fault)

  const BOUNDARY := Scan(0, 0, 0)

  function Begin(s: Scan, lead: Byte): Scanned {
    if lead <= 0x7F then Next(s, true)
    else if 0xC2 <= lead <= 0xDF then Next(Scan(1, 0x80, 0xBF), false)
    else if lead == 0xE0 then Next(Scan(2, 0xA0, 0xBF), false)
    else if 0xE1 <= lead <= 0xEC || 0xEE <= lead <= 0xEF then Next(Scan(2, 0x80, 0xBF), false)
    else if lead == 0xED then Next(Scan(2, 0x80, 0x9F), false)
    else if lead == 0xF0 then Next(Scan(3, 0x90, 0xBF), false)
    else if 0xF1 <= lead <= 0xF3 then Next(Scan(3, 0x80, 0xBF), false)
    else if lead == 0xF4 then Next(Scan(3, 0x80, 0x8F), false)
    else Bad(InvalidLeadByte)
  }

  function Step(s: Scan, b: Byte): Scanned {
    if s.remaining == 0 then Begin(s, b)
    else if b < s.lo || b > s.hi then Bad(InvalidContinuation)
    else Next(Scan(s.remaining - 1, 0x80, 0xBF), s.remaining == 1)
  }

  class Utf8Scanner {
    var remaining: nat
    var nextLo: nat
    var nextHi: nat

    function View(): Scan
      reads this
    {
      Scan(remaining, nextLo, nextHi)
    }

    constructor ()
      ensures View() == BOUNDARY
    {
      remaining, nextLo, nextHi := 0, 0, 0;
    }

    method Push(b: Byte) returns (r: Scanned)
      modifies this
      ensures r == Step(old(View()), b) && (r.Next? ==> View() == r.scan)
    {
      if remaining == 0 {
        r := BeginScalar(b);
        return;
      }
      if b < nextLo || b > nextHi {
        return Bad(InvalidContinuation);
      }
      remaining, nextLo, nextHi := remaining - 1, 0x80, 0xBF;
      r := Next(View(), remaining == 0);
    }

    method BeginScalar(lead: Byte) returns (r: Scanned)
      modifies this
      ensures r == Begin(old(View()), lead) && (r.Next? ==> View() == r.scan)
    {
      if lead <= 0x7F {
        return Next(View(), true);
      } else if 0xC2 <= lead <= 0xDF {
        remaining, nextLo, nextHi := 1, 0x80, 0xBF;
      } else if lead == 0xE0 {
        remaining, nextLo, nextHi := 2, 0xA0, 0xBF;
      } else if 0xE1 <= lead <= 0xEC || 0xEE <= lead <= 0xEF {
        remaining, nextLo, nextHi := 2, 0x80, 0xBF;
      } else if lead == 0xED {
        remaining, nextLo, nextHi := 2, 0x80, 0x9F;
      } else if lead == 0xF0 {
        remaining, nextLo, nextHi := 3, 0x90, 0xBF;
      } else if 0xF1 <= lead <= 0xF3 {
        remaining, nextLo, nextHi := 3, 0x80, 0xBF;
      } else if lead == 0xF4 {
        remaining, nextLo, nextHi := 3, 0x80, 0x8F;
      } else {
        return Bad(InvalidLeadByte);
      }
      r := Next(View(), false);
    }

    predicate AtBoundary()
      reads this
    {
      remaining == 0
    }
  }

  // The encoding: Unicode scalar values, one to four bytes each.

  type Scalar = c: nat | c < 0xD800 || 0xE000 <= c <= 0x10FFFF

  /** A continuation byte with six bits of a value. */
  function Tail(n: nat): (b: Byte)
    ensures 0x80 <= b <= 0xBF && b - 0x80 == n % 64
  {
    0x80 + n % 64
  }

  function Encode(c: Scalar): (s: seq<Byte>)
    ensures 1 <= |s| <= 4
  {
    if c < 0x80 then [c]
    else if c < 0x800 then [0xC0 + c / 64, Tail(c)]
    else if c < 0x1_0000 then [0xE0 + c / 4096, Tail(c / 64), Tail(c)]
    else
      assert c / 0x4_0000 <= 4;
      [0xF0 + c / 0x4_0000, Tail(c / 4096), Tail(c / 64), Tail(c)]
  }

  function EncodeAll(cs: seq<Scalar>): seq<Byte> {
    if cs == [] then [] else EncodeAll(cs[..|cs| - 1]) + Encode(cs[|cs| - 1])
  }

  /** A byte string that encodes some sequence of scalar values. */
  ghost predicate WellFormed(s: seq<Byte>) {
    exists cs :: EncodeAll(cs) == s
  }

  lemma OneMoreScalar(cs: seq<Scalar>, c: Scalar)
    ensures EncodeAll(cs + [c]) == EncodeAll(cs) + Encode(c)
  {
    hide Encode;
    assert (cs + [c])[..|cs|] == cs;
  }

  lemma TwoBytes(a: Byte, b: Byte) returns (c: Scalar)
    requires 0xC2 <= a <= 0xDF && 0x80 <= b <= 0xBF
    ensures Encode(c) == [a, b]
  {
    var n: nat := (a - 0xC0) * 64 + (b - 0x80);
    assert n / 64 == a - 0xC0 && n % 64 == b - 0x80;
    c := n;
  }

  lemma ThreeBytes(a: Byte, b: Byte, d: Byte) returns (c: Scalar)
    requires 0xE0 <= a <= 0xEF && 0x80 <= b <= 0xBF && 0x80 <= d <= 0xBF && (a == 0xE0 ==> 0xA0 <= b) && (a == 0xED ==> b <= 0x9F)
    ensures Encode(c) == [a, b, d]
  {
    var m: nat := (a - 0xE0) * 64 + (b - 0x80);
    var n: nat := m * 64 + (d - 0x80);
    assert m / 64 == a - 0xE0 && m % 64 == b - 0x80;
    assert n / 64 == m && n % 64 == d - 0x80 && n / 4096 == m / 64;
    c := n;
  }

  lemma FourBytes(a: Byte, b: Byte, d: Byte, e: Byte) returns (c: Scalar)
    requires 0xF0 <= a <= 0xF4 && 0x80 <= b <= 0xBF && 0x80 <= d <= 0xBF && 0x80 <= e <= 0xBF
    requires (a == 0xF0 ==> 0x90 <= b) && (a == 0xF4 ==> b <= 0x8F)
    ensures Encode(c) == [a, b, d, e]
  {
    var l: nat := (a - 0xF0) * 64 + (b - 0x80);
    var m: nat := l * 64 + (d - 0x80);
    var n: nat := m * 64 + (e - 0x80);
    assert l / 64 == a - 0xF0 && l % 64 == b - 0x80;
    assert m / 64 == l && m % 64 == d - 0x80;
    assert n / 64 == m && n % 64 == e - 0x80 && n / 4096 == l && n / 0x4_0000 == l / 64;
    c := n;
  }

  // Runs of the scanner.

  /** The scanner over a byte string, from a boundary; `None` once it has faulted. */
  function Run(s: seq<Byte>): Option<Scan> {
    if s == [] then Some(BOUNDARY)
    else
      match Run(s[..|s| - 1])
      case None => None
      case Some(scan) =>
        match Step(scan, s[|s| - 1])
        case Bad(_) => None
        case Next(next, _) => Some(next)
  }

  /** The scanner mid-scalar: `got` are the bytes so far of a scalar that may still be completed. */
  ghost predicate Partial(got: seq<Byte>, scan: Scan) {
    if got == [] then scan.remaining == 0
    else
      && scan.remaining > 0 && Begin(BOUNDARY, got[0]).Next? && !Begin(BOUNDARY, got[0]).completed
      && |got| + scan.remaining == 1 + Begin(BOUNDARY, got[0]).scan.remaining
      && (|got| == 1 ==> scan == Begin(BOUNDARY, got[0]).scan)
      && (|got| > 1 ==> Begin(BOUNDARY, got[0]).scan.lo <= got[1] <= Begin(BOUNDARY, got[0]).scan.hi && scan.lo == 0x80 && scan.hi == 0xBF)
      && forall i :: 2 <= i < |got| ==> 0x80 <= got[i] <= 0xBF
  }

  /** A completed scalar is some scalar value's encoding. */
  lemma CompletedEncodes(got: seq<Byte>, scan: Scan, b: Byte) returns (c: Scalar)
    requires Partial(got, scan) && Step(scan, b).Next? && Step(scan, b).completed
    ensures Encode(c) == got + [b]
  {
    if got == [] {
      c := b;
    } else if |got| == 1 {
      c := TwoBytes(got[0], b);
      assert got + [b] == [got[0], b];
    } else if |got| == 2 {
      c := ThreeBytes(got[0], got[1], b);
      assert got + [b] == [got[0], got[1], b];
    } else {
      c := FourBytes(got[0], got[1], got[2], b);
      assert got + [b] == [got[0], got[1], got[2], b];
    }
  }

  /** What the scanner has accepted is a sequence of whole scalars and the bytes of one still open. */
  lemma {:induction false} Sound(s: seq<Byte>) returns (cs: seq<Scalar>, got: seq<Byte>)
    requires Run(s).Some?
    ensures s == EncodeAll(cs) + got && |got| <= 3 && Partial(got, Run(s).value)
    ensures Run(s).value.remaining == 0 <==> got == []
  {
    hide Encode, Begin;
    if s == [] {
      cs, got := [], [];
    } else {
      var front, b := s[..|s| - 1], s[|s| - 1];
      var cs0, got0 := Sound(front);
      var scan := Run(front).value;
      assert s == front + [b];
      if Step(scan, b).completed {
        var c := CompletedEncodes(got0, scan, b);
        OneMoreScalar(cs0, c);
        Assoc(EncodeAll(cs0), got0, [b]);
        cs, got := cs0 + [c], [];
        CompletedRests(scan, b);
      } else {
        PartialGrows(got0, scan, b);
        Assoc(EncodeAll(cs0), got0, [b]);
        cs, got := cs0, got0 + [b];
      }
    }
  }

  lemma CompletedRests(scan: Scan, b: Byte)
    requires Step(scan, b).Next? && Step(scan, b).completed
    ensures Step(scan, b).scan.remaining == 0
  {
  }

  lemma PartialGrows(got: seq<Byte>, scan: Scan, b: Byte)
    requires Partial(got, scan) && Step(scan, b).Next? && !Step(scan, b).completed
    ensures Partial(got + [b], Step(scan, b).scan) && |got| < 3 && Step(scan, b).scan.remaining > 0
  {
  }

  /** How an encoding looks to the scanner. */
  lemma EncodingShape(c: Scalar)
    ensures var e := Encode(c);
            var first := Begin(BOUNDARY, e[0]);
            && first.Next? && (first.completed <==> |e| == 1)
            && (|e| > 1 ==> first.scan.remaining == |e| - 1 && first.scan.lo <= e[1] <= first.scan.hi)
            && forall i :: 1 <= i < |e| ==> 0x80 <= e[i] <= 0xBF
  {
    if 0x800 <= c < 0x1_0000 {
      assert c / 4096 == c / 64 / 64;
    } else if 0x1_0000 <= c {
      assert c / 0x4_0000 == c / 4096 / 64;
    }
  }

  /** Where the scanner is `n` bytes into an encoding. */
  lemma {:induction false} EncodingRuns(s: seq<Byte>, c: Scalar, n: nat)
    requires Run(s).Some? && Run(s).value.remaining == 0 && n <= |Encode(c)|
    ensures var e, r := Encode(c), Run(s + Encode(c)[..n]);
            && r.Some? && (r.value.remaining == 0 <==> n == 0 || n == |e|)
            && (0 < n < |e| ==> r.value.remaining == |e| - n)
            && (1 == n < |e| ==> r.value == Begin(BOUNDARY, e[0]).scan)
            && (1 < n < |e| ==> r.value.lo == 0x80 && r.value.hi == 0xBF)
  {
    hide Run, Encode;
    var e := Encode(c);
    if n == 0 {
      assert s + e[..0] == s;
    } else {
      EncodingRuns(s, c, n - 1);
      EncodingShape(c);
      assert s + e[..n] == s + e[..n - 1] + [e[n - 1]];
      RunOne(s + e[..n - 1], e[n - 1]);
    }
  }

  lemma RunOne(s: seq<Byte>, b: Byte)
    requires Run(s).Some?
    ensures Run(s + [b]) == match Step(Run(s).value, b) case Bad(_) => None case Next(next, _) => Some(next)
  {
    hide Step;
    assert (s + [b])[..|s|] == s;
  }

  lemma {:induction false} Complete(cs: seq<Scalar>)
    ensures Run(EncodeAll(cs)).Some? && Run(EncodeAll(cs)).value.remaining == 0
  {
    hide Encode, Step;
    if cs != [] {
      var front, c := cs[..|cs| - 1], cs[|cs| - 1];
      Complete(front);
      EncodingRuns(EncodeAll(front), c, |Encode(c)|);
      assert Encode(c)[..|Encode(c)|] == Encode(c);
    }
  }

  /** The scanner accepts a byte string and rests exactly when it encodes a sequence of scalar values. */
  lemma AcceptsExactlyWellFormed(s: seq<Byte>)
    ensures Run(s).Some? && Run(s).value.remaining == 0 <==> WellFormed(s)
  {
    hide Run, EncodeAll;
    if Run(s).Some? && Run(s).value.remaining == 0 {
      var cs, got := Sound(s);
      assert EncodeAll(cs) + [] == EncodeAll(cs);
      assert EncodeAll(cs) == s;
    }
    if WellFormed(s) {
      var cs :| EncodeAll(cs) == s;
      Complete(cs);
    }
  }
}
