/** The canonical TAR writer: ustar headers, pax records where they are needed (src/decompose/writer/tar.rs). */
module TarWriter {
  import opened Bytes
  import opened TarText
  import opened TarWalker

  const MODE_MEMBER: nat := 420
  const MODE_DIRECTORY: nat := 493
  const PAX_TAG: Byte := 120

  /** @PaxHeader */
  const PAX_NAME: seq<Byte> := [64, 80, 97, 120, 72, 101, 97, 100, 101, 114]

  // A header block.

  /** The fields before the checksum. */
  function Front(path: seq<Byte>, size: nat, mode: nat): (b: seq<Byte>)
    ensures |b| == 148
  {
    Name(path, 100) + OctalField(mode, 8) + OctalField(0, 8) + OctalField(0, 8) + OctalField(size, 12) + OctalField(0, 12)
  }

  /** The fields after it. */
  function Back(tag: Byte, link: seq<Byte>): (b: seq<Byte>)
    ensures |b| == 356
  {
    [tag] + Name(link, 100) + (USTAR + [0] + [48, 48] + Zeros(247))
  }

  function HeaderSum(path: seq<Byte>, size: nat, mode: nat, tag: Byte, link: seq<Byte>): nat {
    Sum(Front(path, size, mode) + SPACES + Back(tag, link))
  }

  function HeaderBlock(path: seq<Byte>, size: nat, mode: nat, tag: Byte, link: seq<Byte>): (b: seq<Byte>)
    ensures |b| == BLOCK
  {
    Front(path, size, mode) + (Octal(HeaderSum(path, size, mode, tag, link), 6) + [0, SPACE]) + Back(tag, link)
  }

  method Put(a: array<Byte>, at: nat, bytes: seq<Byte>)
    requires at + |bytes| <= a.Length
    modifies a
    ensures a[..] == old(a[..at]) + bytes + old(a[at + |bytes|..])
  {
    forall i | 0 <= i < |bytes| {
      a[at + i] := bytes[i];
    }
  }

  /** Write a field after zeros only: what is before stays, what is after is still zero. */
  method PutNext(a: array<Byte>, k: nat, at: nat, bytes: seq<Byte>)
    requires k <= at && at + |bytes| <= a.Length && forall i :: k <= i < a.Length ==> a[i] == 0
    modifies a
    ensures a[..at + |bytes|] == old(a[..k]) + Zeros(at - k) + bytes
    ensures forall i :: at + |bytes| <= i < a.Length ==> a[i] == 0
  {
    forall i | 0 <= i < |bytes| {
      a[at + i] := bytes[i];
    }
  }

  method WriteHeaderBlock(path: seq<Byte>, size: nat, mode: nat, tag: Byte, link: seq<Byte>) returns (block: array<Byte>)
    requires size < Power8(11) && mode < Power8(7)
    ensures fresh(block) && block[..] == HeaderBlock(path, size, mode, tag, link)
  {
    hide Octal, Sum, Power8;
    block := new Byte[BLOCK](_ => 0);
    WriteFront(block, path, size, mode);
    WriteBack(block, path, size, mode, tag, link);
    ghost var front, back := Front(path, size, mode), Back(tag, link);
    Put(block, 148, SPACES);
    assert block[..] == front + SPACES + back;
    var sum: nat := 0;
    SumNothing();
    assert block[..0] == [];
    for i := 0 to BLOCK
      invariant block[..] == front + SPACES + back
      invariant sum == Sum(block[..i])
    {
      SumNext(block[..], i);
      sum := sum + block[i];
    }
    assert block[..BLOCK] == block[..];
    ghost var spaced := block[..];
    assert spaced[..148] == front && spaced[156..] == back;
    Put(block, 148, Octal(sum, 6));
    assert block[..154] == front + Octal(sum, 6);
    assert block[156..] == spaced[156..];
    ghost var upTo, after := block[..154], block[156..];
    block[154] := 0;
    block[155] := SPACE;
    assert block[..154] == upTo && block[156..] == after;
    assert block[..] == block[..154] + [block[154], block[155]] + block[156..];
    assert front + Octal(sum, 6) + [0, SPACE] == front + (Octal(sum, 6) + [0, SPACE]);
  }

  lemma SumNothing()
    ensures Sum([]) == 0
  {
  }

  lemma SumNext(s: seq<Byte>, i: nat)
    requires i < |s|
    ensures Sum(s[..i + 1]) == Sum(s[..i]) + s[i]
  {
    assert s[..i + 1][..i] == s[..i];
  }

  method WriteFront(block: array<Byte>, path: seq<Byte>, size: nat, mode: nat)
    requires block.Length == BLOCK && forall i :: 0 <= i < BLOCK ==> block[i] == 0
    modifies block
    ensures block[..148] == Front(path, size, mode) && forall i :: 148 <= i < BLOCK ==> block[i] == 0
  {
    hide Octal;
    var n := if |path| < 100 then |path| else 100;
    PutNext(block, 0, 0, path[..n]);
    assert block[..100] == Name(path, 100);
    PutNext(block, 100, 100, OctalField(mode, 8));
    PutNext(block, 108, 108, OctalField(0, 8));
    PutNext(block, 116, 116, OctalField(0, 8));
    PutNext(block, 124, 124, OctalField(size, 12));
    PutNext(block, 136, 136, OctalField(0, 12));
  }

  method WriteBack(block: array<Byte>, path: seq<Byte>, size: nat, mode: nat, tag: Byte, link: seq<Byte>)
    requires block.Length == BLOCK && block[..148] == Front(path, size, mode) && forall i :: 148 <= i < BLOCK ==> block[i] == 0
    modifies block
    ensures block[..148] == Front(path, size, mode) && block[156..] == Back(tag, link)
  {
    hide Front;
    ghost var front := block[..148];
    WriteLink(block, front, tag, link);
    WriteMagic(block, front + Zeros(8) + [tag] + Name(link, 100));
    ghost var all := front + Zeros(8) + [tag] + Name(link, 100) + (USTAR + [0] + [48, 48] + Zeros(247));
    assert block[..] == all;
    assert all[..148] == front && all[156..] == Back(tag, link);
    assert block[156..] == all[156..] && block[..148] == all[..148];
  }

  method WriteLink(block: array<Byte>, ghost front: seq<Byte>, tag: Byte, link: seq<Byte>)
    requires block.Length == BLOCK && |front| == 148 && block[..148] == front && forall i :: 148 <= i < BLOCK ==> block[i] == 0
    modifies block
    ensures block[..257] == front + Zeros(8) + [tag] + Name(link, 100) && forall i :: 257 <= i < BLOCK ==> block[i] == 0
  {
    var n := if |link| < 100 then |link| else 100;
    PutNext(block, 148, 156, [tag]);
    PutNext(block, 157, 157, link[..n]);
    assert block[..257] == front + Zeros(8) + [tag] + Name(link, 100);
  }

  method WriteMagic(block: array<Byte>, ghost before: seq<Byte>)
    requires block.Length == BLOCK && |before| == 257 && block[..257] == before && forall i :: 257 <= i < BLOCK ==> block[i] == 0
    modifies block
    ensures block[..] == before + (USTAR + [0] + [48, 48] + Zeros(247))
  {
    PutNext(block, 257, 257, USTAR);
    PutNext(block, 262, 263, [48, 48]);
    assert block[..265] == before + USTAR + [0] + [48, 48];
    assert block[265..] == Zeros(247);
    assert block[..] == block[..265] + block[265..];
  }

  // What the writer is asked to write.

  /** An entry: a member with its bytes, or a directory, link or device, which has none. */
  datatype Item = Item(path: seq<Byte>, kind: Kind, data: seq<Byte>)

  function TagOf(kind: Kind): Byte {
    match kind
    case Regular => 48
    case Directory => 53
    case Symlink(_) => 50
    case Hardlink(_) => 49
    case Other(tag) => tag
  }

  function LinkOf(kind: Kind): seq<Byte> {
    match kind
    case Symlink(target) => target
    case Hardlink(target) => target
    case _ => []
  }

  function ModeOf(kind: Kind): nat {
    if kind.Directory? then MODE_DIRECTORY else MODE_MEMBER
  }

  /** The pax block before a header: its own header, the records, zeros to the block boundary. */
  function PaxBytes(pax: seq<Byte>): seq<Byte> {
    if pax == [] then [] else HeaderBlock(PAX_NAME, |pax|, MODE_MEMBER, PAX_TAG, []) + (pax + Zeros(Padding(|pax|)))
  }

  function HeaderBytes(path: seq<Byte>, size: nat, mode: nat, tag: Byte, link: seq<Byte>): seq<Byte> {
    PaxBytes(PaxRecords(path, link)) + HeaderBlock(path, size, mode, tag, link)
  }

  function ItemHeader(item: Item): seq<Byte> {
    HeaderBytes(item.path, |item.data|, ModeOf(item.kind), TagOf(item.kind), LinkOf(item.kind))
  }

  function ItemBytes(item: Item): seq<Byte> {
    ItemHeader(item) + (item.data + Zeros(Padding(|item.data|)))
  }

  function Items(items: seq<Item>): seq<Byte> {
    if items == [] then [] else Items(items[..|items| - 1]) + ItemBytes(items[|items| - 1])
  }

  /** The canonical archive: every item, then two zero blocks. */
  function Archive(items: seq<Item>): seq<Byte> {
    Items(items) + (Zeros(BLOCK) + Zeros(BLOCK))
  }

  /** What the header's size field can hold; the writer stops the program otherwise. */
  predicate Printable(item: Item) {
    && |item.data| < Power8(11) && |PaxRecords(item.path, LinkOf(item.kind))| < Power8(11)
    && (item.kind.Regular? || item.data == [])
  }

  lemma ModesFit()
    ensures MODE_MEMBER < Power8(7) && MODE_DIRECTORY < Power8(7)
  {
    assert Power8(3) == 512;
    assert Power8(7) == 8 * Power8(6);
    assert Power8(5) >= Power8(4) >= Power8(3);
  }

  method EmitPadded(bytes: seq<Byte>) returns (out: seq<Byte>)
    ensures out == bytes + Zeros(Padding(|bytes|))
  {
    out := bytes;
    var rem := |bytes| % BLOCK;
    if rem != 0 {
      out := out + seq(BLOCK - rem, _ => 0);
    }
  }

  method EmitHeader(path: seq<Byte>, size: nat, mode: nat, tag: Byte, link: seq<Byte>) returns (out: seq<Byte>)
    requires size < Power8(11) && mode < Power8(7) && |PaxRecords(path, link)| < Power8(11)
    ensures out == HeaderBytes(path, size, mode, tag, link)
  {
    hide HeaderBlock, PaxRecords, Power8;
    var pax := WritePaxRecords(path, link);
    out := [];
    if pax != [] {
      ModesFit();
      var paxBlock := WriteHeaderBlock(PAX_NAME, |pax|, MODE_MEMBER, PAX_TAG, []);
      var padded := EmitPadded(pax);
      out := paxBlock[..] + padded;
    }
    var block := WriteHeaderBlock(path, size, mode, tag, link);
    out := out + block[..];
  }

  datatype OpenMember = OpenMember(size: nat, written: nat)

  class CanonicalTarWriter {
    var open: Option<OpenMember>
    ghost var items: seq<Item>
    ghost var path: seq<Byte>
    ghost var data: seq<Byte>
    ghost var out: seq<Byte>

    /** What came out is the finished items, then the open member's header and its bytes so far. */
    ghost predicate Valid()
      reads this
    {
      match open
      case None => out == Items(items)
      case Some(m) =>
        && m.written == |data| <= m.size
        && out == Items(items) + (HeaderBytes(path, m.size, MODE_MEMBER, 48, []) + data)
    }

    constructor ()
      ensures Valid() && open == None && items == [] && out == []
    {
      open, items, path, data, out := None, [], [], [], [];
    }

    /** A directory, link or device. */
    method WriteEntry(kind: Kind, entryPath: seq<Byte>) returns (bytes: seq<Byte>)
      requires Valid() && open.None? && !kind.Regular? && Printable(Item(entryPath, kind, []))
      modifies this
      ensures Valid() && open.None? && items == old(items) + [Item(entryPath, kind, [])] && out == old(out) + bytes
    {
      hide HeaderBytes, PaxRecords, Power8;
      ModesFit();
      bytes := EmitHeader(entryPath, 0, ModeOf(kind), TagOf(kind), LinkOf(kind));
      ghost var item := Item(entryPath, kind, []);
      assert ItemBytes(item) == bytes;
      OneMoreItem(items, item);
      items := items + [item];
      out := out + bytes;
    }

    method BeginMember(memberPath: seq<Byte>, size: nat) returns (bytes: seq<Byte>)
      requires Valid() && open.None? && size < Power8(11) && |PaxRecords(memberPath, [])| < Power8(11)
      modifies this
      ensures Valid() && open == Some(OpenMember(size, 0)) && path == memberPath && data == []
      ensures items == old(items) && out == old(out) + bytes
    {
      hide HeaderBytes, PaxRecords, Power8, Items;
      ModesFit();
      bytes := EmitHeader(memberPath, size, MODE_MEMBER, 48, []);
      open := Some(OpenMember(size, 0));
      path, data := memberPath, [];
      out := out + bytes;
      assert bytes + [] == bytes;
    }

    method MemberBytes(bytes: seq<Byte>) returns (emitted: seq<Byte>)
      requires Valid() && open.Some? && open.value.written + |bytes| <= open.value.size
      modifies this
      ensures Valid() && open == Some(old(open).value.(written := old(open).value.written + |bytes|))
      ensures items == old(items) && path == old(path) && data == old(data) + bytes && out == old(out) + emitted && emitted == bytes
    {
      hide HeaderBytes, Items;
      var m := open.value;
      open := Some(m.(written := m.written + |bytes|));
      ghost var header := HeaderBytes(path, m.size, MODE_MEMBER, 48, []);
      assert Items(items) + (header + data) + bytes == Items(items) + (header + (data + bytes));
      data := data + bytes;
      out := out + bytes;
      emitted := bytes;
    }

    method EndMember() returns (bytes: seq<Byte>)
      requires Valid() && open.Some? && open.value.written == open.value.size
      modifies this
      ensures Valid() && open.None? && items == old(items) + [Item(old(path), Regular, old(data))] && out == old(out) + bytes
    {
      hide HeaderBytes, Items;
      var m := open.value;
      open := None;
      var remainder := m.size % BLOCK;
      bytes := [];
      if remainder != 0 {
        bytes := seq(BLOCK - remainder, _ => 0);
      }
      assert bytes == Zeros(Padding(m.size));
      ghost var header := HeaderBytes(path, m.size, MODE_MEMBER, 48, []);
      OneMoreItem(items, Item(path, Regular, data));
      assert Items(items) + (header + data) + bytes == Items(items) + (header + (data + bytes));
      items := items + [Item(path, Regular, data)];
      out := out + bytes;
    }

    method Finish() returns (bytes: seq<Byte>)
      requires Valid() && open.None?
      ensures out + bytes == Archive(items)
    {
      bytes := seq(BLOCK, _ => 0);
      bytes := bytes + seq(BLOCK, _ => 0);
      assert bytes == Zeros(BLOCK) + Zeros(BLOCK);
    }
  }

  lemma OneMoreItem(items: seq<Item>, item: Item)
    ensures Items(items + [item]) == Items(items) + ItemBytes(item)
  {
    hide ItemBytes;
    assert (items + [item])[..|items|] == items;
  }
}
