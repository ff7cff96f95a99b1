/** The numbers of TAR headers and pax records: exactly which byte strings are read as which (src/decompose/tar.rs). */
module TarNumbers {
  import opened Bytes
  import opened TarText

  /** A slice behind the first byte is one of the rest. */
  lemma Behind(s: seq<Byte>, i: nat, j: nat)
    requires 1 <= i <= j <= |s|
    ensures s[i..j] == s[1..][i - 1..j - 1]
  {
    var x, y := s[i..j], s[1..][i - 1..j - 1];
    assert |x| == |y| == j - i;
    assert forall k :: 0 <= k < j - i ==> x[k] == s[i + k] == s[1..][i - 1 + k] == y[k];
    assert x == y;
  }

  predicate Spaces(s: seq<Byte>) {
    forall i :: 0 <= i < |s| ==> s[i] == ' ' as int
  }

  /** Digits below `base`, and nothing else. */
  predicate Digits(s: seq<Byte>, base: nat) {
    forall i :: 0 <= i < |s| ==> '0' as int <= s[i] < '0' as int + base
  }

  /** What digits are worth, after `value`. */
  function Worth(s: seq<Byte>, base: nat, value: nat): nat
    requires Digits(s, base)
  {
    if s == [] then value else Worth(s[1..], base, value * base + (s[0] - '0' as int))
  }

  lemma {:induction false} WorthGrows(s: seq<Byte>, base: nat, value: nat)
    requires Digits(s, base) && base >= 1
    ensures value <= Worth(s, base, value)
  {
    if s != [] {
      var next := value * base + (s[0] - '0' as int);
      assert value * base >= value;
      WorthGrows(s[1..], base, next);
    }
  }

  /** A field: spaces, digits, and, unless they fill it, a space or NUL with anything behind. */
  predicate OctalField(field: seq<Byte>, spaces: nat, digits: nat) {
    && spaces + digits <= |field| && digits > 0
    && Spaces(field[..spaces]) && Digits(field[spaces..spaces + digits], 8)
    && (spaces + digits < |field| ==> field[spaces + digits] == ' ' as int || field[spaces + digits] == 0)
  }

  lemma {:induction false} ScanDigits(field: seq<Byte>, n: nat, value: nat, seen: bool)
    requires n <= |field| && Digits(field[..n], 8) && value <= 0xFFFF_FFFF_FFFF_FFFF && (seen || n > 0)
    requires n < |field| ==> field[n] == ' ' as int || field[n] == 0
    ensures ScanOctal(field, value, seen) ==
            var worth := Worth(field[..n], 8, value); if worth > 0xFFFF_FFFF_FFFF_FFFF then None else Some(worth)
    decreases n
  {
    if n > 0 {
      var next := value * 8 + (field[0] - '0' as int);
      assert field[..n][1..] == field[1..][..n - 1] && field[..n][0] == field[0];
      WorthGrows(field[..n][1..], 8, next);
      if next <= 0xFFFF_FFFF_FFFF_FFFF {
        ScanDigits(field[1..], n - 1, next, true);
      }
    } else {
      assert field[..0] == [];
    }
  }

  /** Every field of that form is read as its digits' worth, when that fits 64 bits. */
  lemma {:induction false} OctalRead(field: seq<Byte>, spaces: nat, digits: nat)
    requires OctalField(field, spaces, digits)
    ensures ParseOctal(field) ==
            var worth := Worth(field[spaces..spaces + digits], 8, 0); if worth > 0xFFFF_FFFF_FFFF_FFFF then None else Some(worth)
    decreases spaces
  {
    if spaces == 0 {
      assert field[0..digits] == field[..digits];
      ScanDigits(field, digits, 0, false);
    } else {
      assert field[..spaces][0] == field[0] && field[..spaces][1..] == field[1..][..spaces - 1];
      Behind(field, spaces, spaces + digits);
      OctalRead(field[1..], spaces - 1, digits);
    }
  }

  lemma {:induction false} ScanTells(field: seq<Byte>, value: nat, seen: bool) returns (n: nat)
    requires ScanOctal(field, value, seen).Some? && seen
    ensures n <= |field| && Digits(field[..n], 8) && (n < |field| ==> field[n] == ' ' as int || field[n] == 0)
    decreases |field|
  {
    n := 0;
    if field != [] && '0' as int <= field[0] < '8' as int {
      var more := ScanTells(field[1..], value * 8 + (field[0] - '0' as int), true);
      n := more + 1;
      assert field[..n] == [field[0]] + field[1..][..more];
    }
  }

  /** And no other field is read as anything. */
  lemma {:induction false} OctalIs(field: seq<Byte>) returns (spaces: nat, digits: nat)
    requires ParseOctal(field).Some?
    ensures OctalField(field, spaces, digits)
    decreases |field|
  {
    if field[0] == ' ' as int {
      spaces, digits := OctalIs(field[1..]);
      assert field[..spaces + 1] == [field[0]] + field[1..][..spaces];
      Behind(field, spaces + 1, spaces + 1 + digits);
      spaces := spaces + 1;
    } else {
      var more := ScanTells(field[1..], field[0] - '0' as int, true);
      spaces, digits := 0, more + 1;
      assert field[0..digits] == [field[0]] + field[1..][..more];
    }
  }

  lemma OctalExactly(field: seq<Byte>)
    ensures ParseOctal(field).Some? <==>
            exists spaces: nat, digits: nat ::
              OctalField(field, spaces, digits) && Worth(field[spaces..spaces + digits], 8, 0) <= 0xFFFF_FFFF_FFFF_FFFF
  {
    hide ParseOctal, Worth;
    if ParseOctal(field).Some? {
      var spaces, digits := OctalIs(field);
      OctalRead(field, spaces, digits);
    }
    if spaces: nat, digits: nat :| OctalField(field, spaces, digits) && Worth(field[spaces..spaces + digits], 8, 0) <= 0xFFFF_FFFF_FFFF_FFFF {
      OctalRead(field, spaces, digits);
    }
  }

  /** A decimal: at least one digit, a plus sign in front or not. */
  predicate DecimalText(s: seq<Byte>) {
    s != [] && if s[0] == '+' as int then |s| > 1 && Digits(s[1..], 10) else Digits(s, 10)
  }

  function DecimalWorth(s: seq<Byte>): nat
    requires DecimalText(s)
  {
    if s[0] == '+' as int then Worth(s[1..], 10, 0) else Worth(s, 10, 0)
  }

  lemma {:induction false} ScanDecimalExactly(s: seq<Byte>, value: nat)
    requires value <= 0xFFFF_FFFF_FFFF_FFFF
    ensures ScanDecimal(s, value) ==
            if Digits(s, 10) && Worth(s, 10, value) <= 0xFFFF_FFFF_FFFF_FFFF then Some(Worth(s, 10, value)) else None
    decreases |s|
  {
    if s != [] && '0' as int <= s[0] <= '9' as int {
      var next := value * 10 + (s[0] - '0' as int);
      assert Digits(s, 10) <==> Digits(s[1..], 10) by {
        assert s == [s[0]] + s[1..];
      }
      if Digits(s, 10) {
        WorthGrows(s[1..], 10, next);
      }
      if next <= 0xFFFF_FFFF_FFFF_FFFF {
        ScanDecimalExactly(s[1..], next);
      }
    }
  }

  /** A length or size of a pax record is read exactly when it is such a text and fits 64 bits. */
  lemma DecimalExactly(s: seq<Byte>)
    ensures ParseDecimal(s) ==
            if DecimalText(s) && DecimalWorth(s) <= 0xFFFF_FFFF_FFFF_FFFF then Some(DecimalWorth(s)) else None
  {
    hide ScanDecimal, Worth;
    if s != [] {
      ScanDecimalExactly(s, 0);
      ScanDecimalExactly(s[1..], 0);
    }
  }
}
