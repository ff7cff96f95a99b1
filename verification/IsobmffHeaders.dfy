/** Box headers as they are printed (section 4.2 of ISO/IEC 14496-12), and that the walker reads exactly those. */
module IsobmffHeaders {
  import opened Bytes
  import opened IsobmffWalker
  import opened IsobmffGrammar

  /** A number as `n` bytes, the most significant first. */
  function Print(v: nat, n: nat): (s: seq<Byte>)
    ensures |s| == n
  {
    if n == 0 then [] else Print(v / 256, n - 1) + [v % 256]
  }

  function Power(n: nat): Pos {
    if n == 0 then 1 else 256 * Power(n - 1)
  }

  lemma {:induction false} PrintReads(v: nat, n: nat)
    requires v < Power(n)
    ensures BigEndian(Print(v, n)) == v
  {
    if n > 0 {
      PrintReads(v / 256, n - 1);
      assert Print(v, n)[..n - 1] == Print(v / 256, n - 1);
    }
  }

  lemma {:induction false} ReadPrints(s: seq<Byte>)
    ensures BigEndian(s) < Power(|s|) && Print(BigEndian(s), |s|) == s
  {
    if s != [] {
      var front, b := s[..|s| - 1], s[|s| - 1];
      ReadPrints(front);
      var v := BigEndian(s);
      assert v == BigEndian(front) * 256 + b && v / 256 == BigEndian(front) && v % 256 == b;
      assert s == front + [b];
    }
  }

  lemma Powers()
    ensures Power(4) == 0x1_0000_0000 && Power(8) == 0x1_0000_0000_0000_0000
  {
    assert Power(2) == 0x1_0000;
    assert Power(6) == 256 * (256 * Power(4));
  }

  /** How a header gives its box's size: in its first four bytes, in eight more, or not at all. */
  datatype SizeForm = Compact(size: nat) | Extended(size: nat) | ToEnd

  /** A header: a size, a type as one word, and the user type of a uuid box. */
  datatype BoxHeader = BoxHeader(form: SizeForm, kind: nat, user: seq<Byte>)

  /** Zero and one in the first four bytes are taken for the other two forms; only uuid boxes have a user type. */
  predicate Printable(h: BoxHeader) {
    && h.kind < 0x1_0000_0000
    && (match h.form
        case Compact(size) => 2 <= size < 0x1_0000_0000
        case Extended(size) => size < 0x1_0000_0000_0000_0000
        case ToEnd => true)
    && |h.user| == if h.kind == 0x7575_6964 then 16 else 0
  }

  function PrintHeader(h: BoxHeader): seq<Byte> {
    (match h.form
     case Compact(size) => Print(size, 4) + Print(h.kind, 4)
     case Extended(size) => Print(1, 4) + Print(h.kind, 4) + Print(size, 8)
     case ToEnd => Print(0, 4) + Print(h.kind, 4))
    + h.user
  }

  function BoxOf(h: BoxHeader): Box {
    Box(|PrintHeader(h)|, if h.form.ToEnd? then None else Some(h.form.size), h.kind)
  }

  /** Every printed header reads back, whatever follows it: its own length, its size, its type. */
  lemma HeaderReads(h: BoxHeader, rest: seq<Byte>)
    requires Printable(h)
    ensures ParseHeader(PrintHeader(h) + rest) == Some(BoxOf(h))
    ensures |PrintHeader(h)| == 8 + (if h.form.Extended? then 8 else 0) + |h.user|
  {
    hide Print, BigEndian;
    var s := PrintHeader(h) + rest;
    Powers();
    PrintReads(h.kind, 4);
    assert s[4..8] == Print(h.kind, 4);
    match h.form {
      case Compact(size) =>
        PrintReads(size, 4);
        assert s[0..4] == Print(size, 4);
      case Extended(size) =>
        PrintReads(1, 4);
        PrintReads(size, 8);
        assert s[0..4] == Print(1, 4) && s[8..16] == Print(size, 8);
      case ToEnd =>
        PrintReads(0, 4);
        assert s[0..4] == Print(0, 4);
    }
  }

  /** And whatever reads as a header begins with one that is printed so. */
  lemma HeaderPrints(s: seq<Byte>) returns (h: BoxHeader)
    requires ParseHeader(s).Some?
    ensures Printable(h) && PrintHeader(h) <= s && ParseHeader(s) == Some(BoxOf(h))
  {
    hide Print, BigEndian;
    Powers();
    ReadPrints(s[0..4]);
    ReadPrints(s[4..8]);
    var n := HeaderLen(s);
    var at := if CompactSize(s) == 1 then 16 else 8;
    if CompactSize(s) == 1 {
      ReadPrints(s[8..16]);
      h := BoxHeader(Extended(BigEndian(s[8..16])), Kind(s), s[at..n]);
      assert s[..n] == s[0..4] + s[4..8] + s[8..16] + s[at..n];
    } else {
      h := BoxHeader(if CompactSize(s) == 0 then ToEnd else Compact(CompactSize(s)), Kind(s), s[at..n]);
      assert s[..n] == s[0..4] + s[4..8] + s[at..n];
    }
    assert PrintHeader(h) == s[..n];
  }

  /** A byte string reads as a header exactly when it begins with a printed one. */
  lemma ReadsExactly(s: seq<Byte>)
    ensures ParseHeader(s).Some? <==> exists h :: Printable(h) && PrintHeader(h) <= s
  {
    hide ParseHeader, PrintHeader;
    if ParseHeader(s).Some? {
      var h := HeaderPrints(s);
    }
    if h :| Printable(h) && PrintHeader(h) <= s {
      HeaderReads(h, s[|PrintHeader(h)|..]);
      assert PrintHeader(h) + s[|PrintHeader(h)|..] == s;
    }
  }

  // The frozen vocabulary, in letters.

  /** A box type of four letters, as one big-endian word. */
  function WordOf(code: string): nat
    requires |code| == 4
  {
    ((code[0] as nat * 256 + code[1] as nat) * 256 + code[2] as nat) * 256 + code[3] as nat
  }

  const FIRST_BOXES: seq<string> := ["ftyp", "styp", "sidx", "moov", "moof", "free", "skip", "wide", "mdat"]
  const CONTAINERS: seq<string> :=
    ["moov", "trak", "edts", "mdia", "minf", "dinf", "stbl", "mvex", "moof", "traf", "mfra", "udta", "sinf", "schi"]

  predicate Names(codes: seq<string>, kind: nat) {
    exists i :: 0 <= i < |codes| && |codes[i]| == 4 && kind == WordOf(codes[i])
  }

  lemma FirstBoxes(kind: nat)
    ensures MayBegin(kind) <==> Names(FIRST_BOXES, kind)
  {
    var words := [0x6674_7970, 0x7374_7970, 0x7369_6478, 0x6D6F_6F76, 0x6D6F_6F66, 0x6672_6565, 0x736B_6970, 0x7769_6465, 0x6D64_6174];
    assert |FIRST_BOXES| == |words| && forall i :: 0 <= i < |words| ==> |FIRST_BOXES[i]| == 4 && WordOf(FIRST_BOXES[i]) == words[i];
    assert MayBegin(kind) <==> kind in words;
  }

  lemma ContainerBoxes(kind: nat)
    ensures IsContainer(kind) <==> Names(CONTAINERS, kind)
  {
    var words := [0x6D6F_6F76, 0x7472_616B, 0x6564_7473, 0x6D64_6961, 0x6D69_6E66, 0x6469_6E66, 0x7374_626C, 0x6D76_6578, 0x6D6F_6F66,
                  0x7472_6166, 0x6D66_7261, 0x7564_7461, 0x7369_6E66, 0x7363_6869];
    assert |CONTAINERS| == |words| && forall i :: 0 <= i < |words| ==> |CONTAINERS[i]| == 4 && WordOf(CONTAINERS[i]) == words[i];
    assert IsContainer(kind) <==> kind in words;
  }

  lemma UserType()
    ensures UUID == WordOf("uuid")
  {
  }
}
