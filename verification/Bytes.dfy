/** Bytes, byte strings, and the small sequence facts the other modules share. */
module Bytes {

  type Byte = b: int | 0 <= b < 256

  type Pos = n: nat | 0 < n witness 1

  datatype Option<+T> = None | Some(value: T)

  /** The byte is one of these characters. */
  predicate Among(b: Byte, characters: string) {
    exists i :: 0 <= i < |characters| && characters[i] as int == b
  }

  /** Text of seven-bit characters as bytes. */
  function Ascii(text: string): (s: seq<Byte>)
    requires forall i :: 0 <= i < |text| ==> text[i] as int < 128
    ensures |s| == |text|
  {
    seq(|text|, i requires 0 <= i < |text| => text[i] as int)
  }

  /** The concatenation of a list of byte strings, in order. */
  function Flatten(parts: seq<seq<Byte>>): seq<Byte> {
    if parts == [] then [] else Flatten(parts[..|parts| - 1]) + parts[|parts| - 1]
  }

  lemma {:induction false} FlattenAppend(xs: seq<seq<Byte>>, ys: seq<seq<Byte>>)
    ensures Flatten(xs + ys) == Flatten(xs) + Flatten(ys)
  {
    if ys == [] {
      assert xs + ys == xs;
    } else {
      var front := ys[..|ys| - 1];
      assert (xs + ys)[..|xs + ys| - 1] == xs + front;
      FlattenAppend(xs, front);
    }
  }

  lemma FlattenOne(x: seq<Byte>)
    ensures Flatten([x]) == x
  {
    assert [x][..0] == [];
  }

  lemma Regroup<T>(a: seq<T>, b: seq<T>, c: seq<T>, d: seq<T>)
    ensures (a + b) + c + d == a + (b + c + d)
    ensures a + (b + c + d) == a + (b + (c + d))
  {
  }

  lemma Assoc<T>(a: seq<T>, b: seq<T>, c: seq<T>)
    ensures (a + b) + c == a + (b + c)
  {
  }

  /** The first position of `b`, or the length. */
  function Find(s: seq<Byte>, b: Byte): (k: nat)
    ensures k <= |s| && (k < |s| ==> s[k] == b) && b !in s[..k]
  {
    if s == [] || s[0] == b then 0
    else
      var k := Find(s[1..], b) + 1;
      assert s[..k] == [s[0]] + s[1..][..k - 1];
      k
  }

  lemma {:induction false} FindFirst(s: seq<Byte>, b: Byte, k: nat)
    requires k < |s| && s[k] == b && b !in s[..k]
    ensures Find(s, b) == k
  {
    if k > 0 {
      assert s[..k][0] == s[0] && s[..k][1..] == s[1..][..k - 1];
      FindFirst(s[1..], b, k - 1);
    }
  }

  lemma {:induction false} FindAbsent(s: seq<Byte>, b: Byte)
    requires b !in s
    ensures Find(s, b) == |s|
  {
    if s != [] {
      FindAbsent(s[1..], b);
    }
  }

  method Position(s: seq<Byte>, b: Byte) returns (k: nat)
    ensures k == Find(s, b)
  {
    k := 0;
    while k < |s| && s[k] != b
      invariant k <= |s| && b !in s[..k]
    {
      k := k + 1;
    }
    if k < |s| {
      FindFirst(s, b, k);
    } else {
      assert s[..k] == s;
      FindAbsent(s, b);
    }
  }
}
