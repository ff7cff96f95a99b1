/** The text inside TAR headers: octal fields, decimal lengths, C strings and pax records (src/decompose/tar.rs, src/decompose/writer/tar.rs). */
module TarText {
  import opened Bytes

  const MAX64: nat := 0xFFFF_FFFF_FFFF_FFFF

  const SPACE: Byte := 32
  const NEWLINE: Byte := 10
  const EQUALS: Byte := 61

  /** A NUL-terminated field. */
  function CString(field: seq<Byte>): seq<Byte> {
    field[..Find(field, 0)]
  }

  predicate NulFree(s: seq<Byte>) {
    0 !in s
  }

  function Zeros(n: nat): (z: seq<Byte>)
    ensures |z| == n && forall i :: 0 <= i < n ==> z[i] == 0
  {
    seq(n, _ => 0)
  }

  /** A name in a zero-filled field, cut to it. */
  function Name(name: seq<Byte>, width: nat): (f: seq<Byte>)
    ensures |f| == width
  {
    if |name| < width then name + Zeros(width - |name|) else name[..width]
  }

  /** What a field holds of a name: the part before its first NUL, as far as it fits. */
  lemma NameReads(name: seq<Byte>, width: nat)
    requires |name| <= width
    ensures CString(Name(name, width)) == CString(name)
  {
    var f, k := Name(name, width), Find(name, 0);
    assert f[..k] == name[..k];
    if k < |name| {
      FindFirst(f, 0, k);
    } else if k < width {
      FindFirst(f, 0, k);
    } else {
      assert f == name;
    }
  }

  lemma CStringExactly(name: seq<Byte>)
    ensures CString(name) == name <==> NulFree(name)
  {
    if NulFree(name) {
      FindAbsent(name, 0);
    }
  }

  // Octal fields.

  predicate OctalDigit(b: Byte) {
    48 <= b <= 55
  }

  /** Scan an octal field, with what has been read so far. */
  function ScanOctal(field: seq<Byte>, value: nat, seen: bool): Option<nat> {
    if field == [] then (if seen then Some(value) else None)
    else
      var b := field[0];
      if OctalDigit(b) then
        var grown := value * 8 + (b - 48);
        if grown > MAX64 then None else ScanOctal(field[1..], grown, true)
      else if b == SPACE && !seen then ScanOctal(field[1..], value, seen)
      else if b == SPACE || b == 0 then (if seen then Some(value) else None)
      else None
  }

  function ParseOctal(field: seq<Byte>): Option<nat> {
    ScanOctal(field, 0, false)
  }

  method ReadOctal(field: seq<Byte>) returns (r: Option<nat>)
    ensures r == ParseOctal(field)
  {
    var value: nat, seen := 0, false;
    for i := 0 to |field|
      invariant ScanOctal(field, 0, false) == ScanOctal(field[i..], value, seen)
    {
      var b := field[i];
      assert field[i..][0] == b && field[i..][1..] == field[i + 1..];
      if OctalDigit(b) {
        value := value * 8 + (b - 48);
        if value > MAX64 {
          return None;
        }
        seen := true;
      } else if b == SPACE && !seen {
      } else if b == SPACE || b == 0 {
        return if seen then Some(value) else None;
      } else {
        return None;
      }
    }
    assert field[|field|..] == [];
    r := if seen then Some(value) else None;
  }

  function Power8(n: nat): Pos {
    if n == 0 then 1 else 8 * Power8(n - 1)
  }

  /** The `width` low octal digits of `v`, most significant first. */
  function Octal(v: nat, width: nat): (s: seq<Byte>)
    ensures |s| == width
  {
    if width == 0 then [] else Octal(v / 8, width - 1) + [48 + v % 8]
  }

  /** A field holding a number: digits and a final NUL. */
  function OctalField(v: nat, width: Pos): (s: seq<Byte>)
    ensures |s| == width
  {
    Octal(v, width - 1) + [0]
  }

  lemma {:induction false} OctalScans(v: nat, width: nat, rest: seq<Byte>)
    requires v < Power8(width) && v <= MAX64
    ensures ScanOctal(Octal(v, width) + rest, 0, false) == ScanOctal(rest, v, width > 0)
  {
    if width == 0 {
      assert Octal(v, width) + rest == rest;
    } else {
      var front, tail := Octal(v / 8, width - 1), [48 + v % 8] + rest;
      assert Octal(v, width) + rest == front + tail;
      OctalScans(v / 8, width - 1, tail);
      assert tail[1..] == rest;
    }
  }

  /** A number that fits its field is read back from it, whatever follows its terminator. */
  lemma OctalReads(v: nat, width: Pos, rest: seq<Byte>)
    requires v < Power8(width) && v <= MAX64
    ensures ParseOctal(Octal(v, width) + [0] + rest) == Some(v)
  {
    assert Octal(v, width) + [0] + rest == Octal(v, width) + ([0] + rest);
    OctalScans(v, width, [0] + rest);
  }

  // Decimal lengths.

  function Decimal(n: nat): (s: seq<Byte>)
    ensures 0 < |s| && forall i :: 0 <= i < |s| ==> 48 <= s[i] <= 57
  {
    if n < 10 then [48 + n] else Decimal(n / 10) + [48 + n % 10]
  }

  predicate DecimalDigit(b: Byte) {
    48 <= b <= 57
  }

  /** Digits read after `value`. */
  function ScanDecimal(s: seq<Byte>, value: nat): Option<nat> {
    if s == [] then Some(value)
    else if !DecimalDigit(s[0]) || value * 10 + (s[0] - 48) > MAX64 then None
    else ScanDecimal(s[1..], value * 10 + (s[0] - 48))
  }

  /** A 64-bit decimal as the standard library parses it: one leading plus sign is let through. */
  function ParseDecimal(s: seq<Byte>): Option<nat> {
    if s == [] then None
    else if s[0] == 43 && |s| > 1 then ScanDecimal(s[1..], 0)
    else ScanDecimal(s, 0)
  }

  lemma {:induction false} DecimalScans(n: nat, rest: seq<Byte>)
    requires n <= MAX64
    ensures ScanDecimal(Decimal(n) + rest, 0) == ScanDecimal(rest, n)
  {
    if n < 10 {
      assert (Decimal(n) + rest)[1..] == rest;
    } else {
      var tail := [48 + n % 10] + rest;
      assert Decimal(n) + rest == Decimal(n / 10) + tail;
      DecimalScans(n / 10, tail);
      assert tail[1..] == rest;
    }
  }

  lemma DecimalReads(n: nat)
    requires n <= MAX64
    ensures ParseDecimal(Decimal(n)) == Some(n)
  {
    DecimalScans(n, []);
    assert Decimal(n) + [] == Decimal(n);
  }

  lemma {:induction false} DecimalGrows(a: nat, b: nat)
    requires a <= b
    ensures |Decimal(a)| <= |Decimal(b)|
  {
    if a >= 10 {
      DecimalGrows(a / 10, b / 10);
    }
  }

  lemma {:induction false} DecimalShort(n: nat)
    requires 2 <= n
    ensures 2 * |Decimal(n)| <= n
  {
    if n >= 20 {
      DecimalShort(n / 10);
    }
  }

  // Pax records: a decimal length that counts itself, a space, key=value, a newline.

  const PATH: seq<Byte> := [112, 97, 116, 104]
  const LINKPATH: seq<Byte> := [108, 105, 110, 107, 112, 97, 116, 104]
  const SIZE: seq<Byte> := [115, 105, 122, 101]

  /** The next candidate total: larger, and not past twice the body. */
  lemma NextTotal(body: nat, total: nat)
    requires 3 <= body && body <= total <= 2 * body && total <= body + |Decimal(total)| && |Decimal(total)| + body != total
    ensures var t := |Decimal(total)| + body; total < t <= 2 * body && t <= body + |Decimal(t)|
  {
    DecimalGrows(total, |Decimal(total)| + body);
    DecimalGrows(total, 2 * body);
    DecimalShort(2 * body);
  }

  /** The length of a record whose part after its digits is `body` long: the first total that counts its own digits. */
  function Settle(body: nat, total: nat): (t: nat)
    requires 3 <= body && body <= total <= 2 * body && total <= body + |Decimal(total)|
    ensures t == |Decimal(t)| + body && total <= t <= 2 * body
    decreases 2 * body - total
  {
    if |Decimal(total)| + body == total then total
    else
      NextTotal(body, total);
      Settle(body, |Decimal(total)| + body)
  }

  function RecordBody(key: seq<Byte>, value: seq<Byte>): nat {
    1 + |key| + 1 + |value| + 1
  }

  function RecordLen(key: seq<Byte>, value: seq<Byte>): (t: nat)
    ensures t == |Decimal(t)| + RecordBody(key, value)
  {
    var body := RecordBody(key, value);
    Settle(body, body)
  }

  /** A record is exactly as long as the number it begins with. */
  function Record(key: seq<Byte>, value: seq<Byte>): (r: seq<Byte>)
    ensures |r| == RecordLen(key, value)
  {
    Decimal(RecordLen(key, value)) + ([SPACE] + key + [EQUALS] + value + [NEWLINE])
  }

  /** The self-referential length loop: it ends, for every key and value. */
  method WriteRecord(key: seq<Byte>, value: seq<Byte>) returns (r: seq<Byte>)
    ensures r == Record(key, value)
  {
    var body := 1 + |key| + 1 + |value| + 1;
    var total := body;
    while true
      invariant body <= total <= 2 * body && total <= body + |Decimal(total)|
      invariant RecordLen(key, value) == Settle(body, total)
      decreases 2 * body - total
    {
      var digits := |Decimal(total)|;
      if digits + body == total {
        break;
      }
      NextTotal(body, total);
      total := digits + body;
    }
    r := Decimal(total) + [SPACE] + key + [EQUALS];
    r := r + value;
    r := r + [NEWLINE];
    assert r == Decimal(total) + ([SPACE] + key + [EQUALS] + value + [NEWLINE]);
  }

  function PathRecord(path: seq<Byte>): seq<Byte> {
    if |path| > 100 then Record(PATH, path) else []
  }

  function LinkRecord(link: seq<Byte>): seq<Byte> {
    if |link| > 100 then Record(LINKPATH, link) else []
  }

  /** The records an entry needs: for a path or a link target the header cannot hold. */
  function PaxRecords(path: seq<Byte>, link: seq<Byte>): seq<Byte> {
    PathRecord(path) + LinkRecord(link)
  }

  method WritePaxRecords(path: seq<Byte>, link: seq<Byte>) returns (records: seq<Byte>)
    ensures records == PaxRecords(path, link)
  {
    records := [];
    if |path| > 100 {
      records := WriteRecord(PATH, path);
    }
    if |link| > 100 {
      var r := WriteRecord(LINKPATH, link);
      records := records + r;
    }
  }

  // Reading pax records.

  datatype PaxFault = NoLength | LengthNotDecimal | LengthOutOfRange | NoNewline | NoEquals | SizeNotDecimal
  datatype Facts = Facts(path: Option<seq<Byte>>, link: Option<seq<Byte>>, size: Option<nat>)
  datatype PaxResult = Read(facts: Facts) | Wrong(fault: PaxFault)

  /** One `key=value` record joins the facts. */
  function AddRecord(facts: Facts, key: seq<Byte>, value: seq<Byte>): PaxResult {
    if key == PATH then Read(facts.(path := Some(value)))
    else if key == LINKPATH then Read(facts.(link := Some(value)))
    else if key == SIZE then
      (match ParseDecimal(value)
       case None => Wrong(SizeNotDecimal)
       case Some(size) => Read(facts.(size := Some(size))))
    else Read(facts)
  }

  /** A record without its length and newline. */
  function ReadRecord(facts: Facts, record: seq<Byte>): PaxResult {
    if record == [] || record[|record| - 1] != NEWLINE then Wrong(NoNewline)
    else
      var line := record[..|record| - 1];
      var eq := Find(line, EQUALS);
      if eq == |line| then Wrong(NoEquals) else AddRecord(facts, line[..eq], line[eq + 1..])
  }

  function ReadPax(facts: Facts, records: seq<Byte>): PaxResult
    decreases |records|
  {
    if records == [] then Read(facts)
    else
      var space := Find(records, SPACE);
      if space == |records| then Wrong(NoLength)
      else
        match ParseDecimal(records[..space])
        case None => Wrong(LengthNotDecimal)
        case Some(len) =>
          if len <= space + 1 || len > |records| then Wrong(LengthOutOfRange)
          else
            match ReadRecord(facts, records[space + 1..len])
            case Wrong(f) => Wrong(f)
            case Read(next) => ReadPax(next, records[len..])
  }

  method ApplyPax(facts: Facts, records: seq<Byte>) returns (r: PaxResult)
    ensures r == ReadPax(facts, records)
  {
    hide ReadRecord, ParseDecimal;
    var now, rest := facts, records;
    while rest != []
      invariant ReadPax(facts, records) == ReadPax(now, rest)
      decreases |rest|
    {
      var space := Position(rest, SPACE);
      if space == |rest| {
        return Wrong(NoLength);
      }
      var parsed := ParseDecimal(rest[..space]);
      if parsed.None? {
        return Wrong(LengthNotDecimal);
      }
      var len := parsed.value;
      if len <= space + 1 || len > |rest| {
        return Wrong(LengthOutOfRange);
      }
      var one := ReadRecord(now, rest[space + 1..len]);
      if one.Wrong? {
        return one;
      }
      now, rest := one.facts, rest[len..];
    }
    r := Read(now);
  }

  function ReadOn(r: PaxResult, rest: seq<Byte>): PaxResult {
    match r
    case Wrong(f) => Wrong(f)
    case Read(facts) => ReadPax(facts, rest)
  }

  /** A printed record is read back whole, whatever bytes its value holds, and reading goes on after it. */
  lemma RecordReads(facts: Facts, key: seq<Byte>, value: seq<Byte>, rest: seq<Byte>)
    requires EQUALS !in key && RecordLen(key, value) <= MAX64
    ensures ReadPax(facts, Record(key, value) + rest) == ReadOn(AddRecord(facts, key, value), rest)
  {
    hide Decimal, ParseDecimal, AddRecord, RecordLen;
    var len := RecordLen(key, value);
    var digits := Decimal(len);
    var body := key + [EQUALS] + value + [NEWLINE];
    var all := Record(key, value) + rest;
    assert all == digits + ([SPACE] + body) + rest by {
      assert [SPACE] + key + [EQUALS] + value + [NEWLINE] == [SPACE] + body;
    }
    var space := |digits|;
    assert all[..space] == digits && all[space] == SPACE;
    FindFirst(all, SPACE, space);
    DecimalReads(len);
    assert all[space + 1..len] == body && all[len..] == rest;
    RecordLine(facts, key, value);
  }

  lemma RecordLine(facts: Facts, key: seq<Byte>, value: seq<Byte>)
    requires EQUALS !in key
    ensures ReadRecord(facts, key + [EQUALS] + value + [NEWLINE]) == AddRecord(facts, key, value)
  {
    hide AddRecord;
    var line := key + [EQUALS] + value;
    assert (key + [EQUALS] + value + [NEWLINE])[..|line|] == line;
    assert line[..|key|] == key && line[|key| + 1..] == value;
    FindFirst(line, EQUALS, |key|);
  }

  /** The records written for a path and a link target give back exactly those that the header cannot hold. */
  lemma PaxReads(path: seq<Byte>, link: seq<Byte>)
    requires |PaxRecords(path, link)| <= MAX64
    ensures ReadPax(Facts(None, None, None), PaxRecords(path, link)) ==
            Read(Facts(if |path| > 100 then Some(path) else None, if |link| > 100 then Some(link) else None, None))
  {
    hide ReadPax, Record;
    var none := Facts(None, None, None);
    var first := if |path| > 100 then none.(path := Some(path)) else none;
    if |path| > 100 {
      RecordReads(none, PATH, path, LinkRecord(link));
    } else {
      assert PaxRecords(path, link) == LinkRecord(link);
    }
    if |link| > 100 {
      RecordReads(first, LINKPATH, link, []);
      assert LinkRecord(link) + [] == LinkRecord(link);
    }
    NothingReads(first);
    NothingReads(first.(link := Some(link)));
  }

  lemma NothingReads(facts: Facts)
    ensures ReadPax(facts, []) == Read(facts)
  {
  }
}
