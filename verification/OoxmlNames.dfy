/** Which packages ooxml-v1 lets through: their names, taken together, and each member on its own (src/chunker/office/package.rs, core.rs). */
module OoxmlNames {
  import opened Bytes
  import opened ZipRecords
  import opened ZipWalker
  import opened ZipScan
  import opened ZipEvents
  import opened ZipRoundTrip
  import opened OoxmlCore
  import opened OoxmlCanon
  import opened OoxmlIdempotence

  // The check on names, after any list of them.

  function CheckNames(c: PackageCheck, names: seq<seq<Byte>>): Option<PackageCheck> {
    if names == [] then Some(c)
    else
      match CheckNames(c, names[..|names| - 1])
      case None => None
      case Some(next) => AddName(next, names[|names| - 1])
  }

  predicate Signs(names: seq<seq<Byte>>) {
    exists i :: 0 <= i < |names| && SIGNATURE_DIR <= names[i]
  }

  predicate Has(names: seq<seq<Byte>>, name: seq<Byte>) {
    exists i :: 0 <= i < |names| && names[i] == name
  }

  lemma MainPartsDiffer(a: OfficeKind, b: OfficeKind)
    ensures MainPart(a) == MainPart(b) <==> a == b
  {
    assert |MainPart(Word)| == 17 && |MainPart(Excel)| == 15 && |MainPart(Powerpoint)| == 20;
  }

  /**
   * Names are refused exactly when there are some and the first is not the content-types part; otherwise the check knows
   * of a signature exactly when some name is in its directory, and of a main part exactly when some name is that part's.
   */
  lemma {:induction false} NamesChecked(expected: Option<OfficeKind>, names: seq<seq<Byte>>)
    ensures var r := CheckNames(NewCheck(expected), names);
            && (r.Some? <==> names == [] || names[0] == CONTENT_TYPES)
            && (r.Some? ==>
                  && r.value.seen == |names| && r.value.expected == expected && (r.value.firstOk <==> names != [])
                  && (r.value.signed <==> Signs(names))
                  && forall kind :: kind in r.value.mainParts <==> Has(names, MainPart(kind)))
  {
    hide MainPart;
    if names != [] {
      var front, name := names[..|names| - 1], names[|names| - 1];
      NamesChecked(expected, front);
      SignsSnoc(front, name);
      assert names == front + [name];
      forall kind ensures Has(names, MainPart(kind)) <==> Has(front, MainPart(kind)) || name == MainPart(kind) {
        HasSnoc(front, name, MainPart(kind));
      }
      KindsOf(name);
    }
  }

  lemma KindsOf(name: seq<Byte>)
    ensures forall kind :: KindOfMainPart(name) == Some(kind) <==> name == MainPart(kind)
  {
    forall kind ensures KindOfMainPart(name) == Some(kind) <==> name == MainPart(kind) {
      MainPartsDiffer(kind, Word);
      MainPartsDiffer(kind, Excel);
      MainPartsDiffer(kind, Powerpoint);
    }
  }

  lemma SignsSnoc(front: seq<seq<Byte>>, name: seq<Byte>)
    ensures Signs(front + [name]) <==> Signs(front) || SIGNATURE_DIR <= name
  {
    var names := front + [name];
    assert names[|front|] == name;
    if Signs(front) {
      var i :| 0 <= i < |front| && SIGNATURE_DIR <= front[i];
      assert names[i] == front[i];
    }
  }

  lemma HasSnoc(front: seq<seq<Byte>>, name: seq<Byte>, wanted: seq<Byte>)
    ensures Has(front + [name], wanted) <==> Has(front, wanted) || name == wanted
  {
    var names := front + [name];
    assert names[|front|] == name;
    if Has(front, wanted) {
      var i :| 0 <= i < |front| && front[i] == wanted;
      assert names[i] == front[i];
    }
  }

  // A package of members.

  function NamesOf(ms: seq<Source>): seq<seq<Byte>> {
    seq(|ms|, i requires 0 <= i < |ms| => ms[i].head.name)
  }

  function TotalLength(names: seq<seq<Byte>>): nat {
    if names == [] then 0 else TotalLength(names[..|names| - 1]) + |names[|names| - 1]|
  }

  /** The names of a package of the kind expected, or of any kind when none is: content types first, a main part, no signature. */
  predicate ProperNames(expected: Option<OfficeKind>, names: seq<seq<Byte>>) {
    && names != [] && names[0] == CONTENT_TYPES && !Signs(names)
    && match expected
       case Some(kind) => Has(names, MainPart(kind))
       case None => exists kind :: Has(names, MainPart(kind))
  }

  /** A member that can be read and is what its header and its end say. */
  predicate Sound(lib: Library, m: Source) {
    !m.head.encrypted && Decodable(m.head.codec) && DataAccepted(lib, m)
  }

  predicate WithinBounds(names: seq<seq<Byte>>) {
    |names| <= MAX_MEMBERS && TotalLength(names) <= MAX_NAME_BYTES
  }

  /** What the core has gathered from members it let through. */
  lemma {:induction false} Gathered(lib: Library, expected: Option<OfficeKind>, ms: seq<Source>)
    ensures var c, names := AbsorbAll(NewCore(expected), PartsOf(lib, ms)), NamesOf(ms);
            && |c.entries| == |ms| && c.namesTotal == TotalLength(names)
            && (CheckNames(NewCheck(expected), names).Some? ==> CheckNames(NewCheck(expected), names) == Some(c.check))
  {
    hide AddName, PartBytes, PartOf;
    if ms != [] {
      var front, m := ms[..|ms| - 1], ms[|ms| - 1];
      Gathered(lib, expected, front);
      OneMorePart(lib, front, m);
      assert PartOf(lib, m).name == m.head.name;
      assert NamesOf(ms)[..|ms| - 1] == NamesOf(front) && PartsOf(lib, ms)[..|ms| - 1] == PartsOf(lib, front);
    }
  }

  lemma OneMorePart(lib: Library, front: seq<Source>, m: Source)
    ensures PartsOf(lib, front + [m]) == PartsOf(lib, front) + [PartOf(lib, m)] && PartOf(lib, m).name == m.head.name
    ensures NamesOf(front + [m]) == NamesOf(front) + [m.head.name]
  {
    hide Decode;
  }

  /** One more member is let in exactly when it is sound, its name passes, and there is room for it. */
  lemma OneAccepted(lib: Library, expected: Option<OfficeKind>, front: seq<Source>, m: Source)
    requires (front != [] ==> NamesOf(front)[0] == CONTENT_TYPES) && !Signs(NamesOf(front)) && WithinBounds(NamesOf(front))
    ensures MemberAccepted(lib, AbsorbAll(NewCore(expected), PartsOf(lib, front)), m) <==>
            && Sound(lib, m) && WithinBounds(NamesOf(front + [m]))
            && NamesOf(front + [m])[0] == CONTENT_TYPES && !Signs(NamesOf(front + [m]))
  {
    hide DataAccepted, AbsorbAll, PartOf, CONTENT_TYPES, SIGNATURE_DIR, Signs, KindOfMainPart;
    var names := NamesOf(front);
    Gathered(lib, expected, front);
    NamesChecked(expected, names);
    OneMorePart(lib, front, m);
    SignsSnoc(names, m.head.name);
    assert (names + [m.head.name])[..|names|] == names;
  }

  /** Every member is let in exactly when each is sound and the names so far are in order, unsigned and within the bounds. */
  lemma {:induction false} AcceptedSoFar(lib: Library, expected: Option<OfficeKind>, ms: seq<Source>)
    ensures AllAccepted(lib, NewCore(expected), ms) <==>
            && (forall i :: 0 <= i < |ms| ==> Sound(lib, ms[i])) && WithinBounds(NamesOf(ms))
            && (ms != [] ==> NamesOf(ms)[0] == CONTENT_TYPES) && !Signs(NamesOf(ms))
  {
    hide MemberAccepted, Sound, AbsorbAll, PartsOf, CONTENT_TYPES, SIGNATURE_DIR, Signs;
    if ms == [] {
      NothingSigned();
      assert NamesOf(ms) == [];
    } else {
      var front, m := ms[..|ms| - 1], ms[|ms| - 1];
      AcceptedSoFar(lib, expected, front);
      assert ms == front + [m];
      SignsSnoc(NamesOf(front), m.head.name);
      NamesSnoc(front, m);
      if AllAccepted(lib, NewCore(expected), front) {
        OneAccepted(lib, expected, front, m);
      }
    }
  }

  lemma NothingSigned()
    ensures !Signs([])
  {
  }

  lemma NamesSnoc(front: seq<Source>, m: Source)
    ensures NamesOf(front + [m]) == NamesOf(front) + [m.head.name]
    ensures WithinBounds(NamesOf(front + [m])) ==> WithinBounds(NamesOf(front))
  {
    var names := NamesOf(front + [m]);
    assert names == NamesOf(front) + [m.head.name];
    assert names[..|names| - 1] == NamesOf(front);
  }

  /**
   * A source the walker reports as these members is canonicalised exactly when their names are a package's of the kind
   * expected, they are within the bounds on members and names, and every member is sound.
   */
  lemma AcceptedExactly(lib: Library, expected: Option<OfficeKind>, s: seq<Byte>, ms: seq<Source>)
    requires Reports(s, PackageEvents(ms))
    ensures Canonicalise(lib, expected, s).Some? <==>
            && ProperNames(expected, NamesOf(ms)) && WithinBounds(NamesOf(ms))
            && forall i :: 0 <= i < |ms| ==> Sound(lib, ms[i])
  {
    hide Run, CoreRun, SourcesEvents, Flat, PackageOps, AllAccepted, MayFinish, AbsorbAll, PartOf, AddName, Signs, WithinBounds, Has, DataAccepted;
    PackageRuns(lib, expected, ms);
    AcceptedSoFar(lib, expected, ms);
    Gathered(lib, expected, ms);
    NamesChecked(expected, NamesOf(ms));
    if AllAccepted(lib, NewCore(expected), ms) {
      Closes(AbsorbAll(NewCore(expected), PartsOf(lib, ms)).check, NamesOf(ms));
    }
  }

  lemma Closes(c: PackageCheck, names: seq<seq<Byte>>)
    requires c.firstOk <==> names != []
    requires forall kind :: kind in c.mainParts <==> Has(names, MainPart(kind))
    ensures CloseCheck(c).None? <==>
            names != [] && match c.expected case Some(kind) => Has(names, MainPart(kind)) case None => exists kind :: Has(names, MainPart(kind))
  {
    hide Has;
    if c.mainParts != {} {
      var kind :| kind in c.mainParts;
    }
  }

  // The frozen names, in letters.

  lemma Spelt(text: string, bytes: seq<Byte>)
    requires |text| == |bytes| && forall i :: 0 <= i < |text| ==> text[i] as int == bytes[i] < 128
    ensures Ascii(text) == bytes
  {
  }

  lemma PackageNames()
    ensures CONTENT_TYPES == Ascii("[Content_Types].xml") && SIGNATURE_DIR == Ascii("_xmlsignatures/")
    ensures MainPart(Word) == Ascii("word/document.xml") && MainPart(Excel) == Ascii("xl/workbook.xml")
    ensures MainPart(Powerpoint) == Ascii("ppt/presentation.xml")
  {
    Spelt("[Content_Types].xml", CONTENT_TYPES);
    Spelt("_xmlsignatures/", SIGNATURE_DIR);
    Spelt("word/document.xml", MainPart(Word));
    Spelt("xl/workbook.xml", MainPart(Excel));
    Spelt("ppt/presentation.xml", MainPart(Powerpoint));
  }

  function Lowered(name: seq<Byte>): (r: seq<Byte>)
    ensures |r| == |name|
  {
    seq(|name|, i requires 0 <= i < |name| => if 'A' as int <= name[i] <= 'Z' as int then name[i] + 32 else name[i])
  }

  predicate Ending(name: seq<Byte>, suffix: seq<Byte>) {
    |suffix| <= |name| && name[|name| - |suffix|..] == suffix
  }

  /** Parts cut at text seams: those whose name, in lower case, ends in .xml or .rels. */
  lemma XmlParts(name: seq<Byte>)
    ensures IsXmlPart(name) <==> Ending(Lowered(name), Ascii(".xml")) || Ending(Lowered(name), Ascii(".rels"))
  {
    Spelt(".xml", [46, 120, 109, 108]);
    Spelt(".rels", [46, 114, 101, 108, 115]);
    EndingIs(name, [46, 120, 109, 108]);
    EndingIs(name, [46, 114, 101, 108, 115]);
  }

  lemma EndingIs(name: seq<Byte>, suffix: seq<Byte>)
    ensures EndsWith(name, suffix) <==> Ending(Lowered(name), suffix)
  {
    if |suffix| <= |name| {
      var tail := Lowered(name)[|name| - |suffix|..];
      assert forall i :: 0 <= i < |suffix| ==> tail[i] == OoxmlCore.Lower(name[|name| - |suffix| + i]);
    }
  }

  /** Parts that begin a chunk of their own: those of unknown size, and those claimed at least 4096 bytes. */
  lemma LargeParts(claimed: Option<nat>)
    ensures LargeClaim(claimed) <==> match claimed case None => true case Some(n) => 4096 <= n
  {
  }
}
