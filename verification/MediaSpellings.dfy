/** Every way to write a media type that parses, and what each means (src/media_type/parse.rs). */
module MediaSpellings {
  import opened Bytes
  import opened MediaTypes

  const CAPITALS := "ABCDEFGHIJKLMNOPQRSTUVWXYZ"
  const SMALL := "abcdefghijklmnopqrstuvwxyz"
  const DIGITS := "0123456789"

  predicate IsLetterOrDigit(b: Byte) {
    Among(b, CAPITALS) || Among(b, SMALL) || Among(b, DIGITS)
  }

  /** A string of one character after another, from the given one on. */
  lemma Runs(b: Byte, text: string, first: nat)
    requires |text| > 0 && forall i :: 0 <= i < |text| ==> text[i] as int == first + i
    ensures Among(b, text) <==> first <= b < first + |text|
  {
    if first <= b < first + |text| {
      assert text[b - first] as int == b;
    }
  }

  lemma Alphabets()
    ensures |CAPITALS| == 26 && forall i :: 0 <= i < 26 ==> CAPITALS[i] as int == 65 + i
    ensures |SMALL| == 26 && forall i :: 0 <= i < 26 ==> SMALL[i] as int == 97 + i
    ensures |DIGITS| == 10 && forall i :: 0 <= i < 10 ==> DIGITS[i] as int == 48 + i
  {
  }

  /** Capitals become the small letters in the same places; nothing else changes. */
  lemma LowerLetters(b: Byte)
    ensures |CAPITALS| == 26 == |SMALL| && forall i :: 0 <= i < 26 && CAPITALS[i] as int == b ==> LowerByte(b) == SMALL[i] as int
    ensures !Among(b, CAPITALS) ==> LowerByte(b) == b
  {
    hide CAPITALS, SMALL, DIGITS;
    Alphabets();
    Runs(b, CAPITALS, 65);
  }

  lemma Alphanumerics(b: Byte)
    ensures IsAlphanumeric(b) <==> IsLetterOrDigit(b)
  {
    hide CAPITALS, SMALL, DIGITS;
    Alphabets();
    Runs(b, CAPITALS, 65);
    Runs(b, SMALL, 97);
    Runs(b, DIGITS, 48);
  }

  /** The bytes of names, of tokens and of blanks, in characters. */
  lemma NameBytes(b: Byte)
    ensures IsNameByte(b) <==> IsLetterOrDigit(b) || Among(b, "!#$&-^_.+")
  {
    hide CAPITALS, SMALL, DIGITS;
    Alphanumerics(b);
    var c := "!#$&-^_.+";
    assert c[0] == '!' && c[1] == '#' && c[2] == '$' && c[3] == '&' && c[4] == '-' && c[5] == '^' && c[6] == '_' && c[7] == '.' && c[8] == '+';
  }

  lemma TokenBytes(b: Byte)
    ensures IsTokenByte(b) <==> IsLetterOrDigit(b) || Among(b, "!#$%&'*+-.^_`|~")
  {
    hide CAPITALS, SMALL, DIGITS;
    Alphanumerics(b);
    var c := "!#$%&'*+-.^_`|~";
    assert c[0] == '!' && c[1] == '#' && c[2] == '$' && c[3] == '%' && c[4] == '&' && c[5] == '\'' && c[6] == '*' && c[7] == '+'
           && c[8] == '-' && c[9] == '.' && c[10] == '^' && c[11] == '_' && c[12] == '`' && c[13] == '|' && c[14] == '~';
  }

  lemma BlankBytes(b: Byte)
    ensures IsBlank(b) <==> Among(b, " \t")
  {
    var c := " \t";
    assert c[0] == ' ' && c[1] == '\t';
  }

  // Spellings: a text and what it means, side by side.

  /** A byte of a quoted string, with or without a backslash before it. */
  datatype Piece = Plain(b: Byte) | Slashed(b: Byte)

  datatype ValueText = AsToken(token: seq<Byte>) | AsString(pieces: seq<Piece>)

  datatype ParameterText = ParameterText(before: seq<Byte>, name: seq<Byte>, value: ValueText, after: seq<Byte>)

  datatype Spelling =
    Spelling(before: seq<Byte>, top: seq<Byte>, sub: seq<Byte>, gap: seq<Byte>, parameters: seq<ParameterText>, after: seq<Byte>)

  function WritePieces(ps: seq<Piece>): (s: seq<Byte>)
    ensures s != []
  {
    if ps == [] then [QUOTE]
    else (if ps[0].Plain? then [ps[0].b] else [BACKSLASH, ps[0].b]) + WritePieces(ps[1..])
  }

  function MeantBytes(ps: seq<Piece>): seq<Byte> {
    if ps == [] then [] else [ps[0].b] + MeantBytes(ps[1..])
  }

  function WriteValue(v: ValueText): seq<Byte> {
    match v
    case AsToken(token) => token
    case AsString(pieces) => [QUOTE] + WritePieces(pieces)
  }

  function MeantValue(v: ValueText): seq<Byte> {
    match v
    case AsToken(token) => token
    case AsString(pieces) => MeantBytes(pieces)
  }

  function WriteParameter(p: ParameterText): seq<Byte> {
    p.before + (p.name + ([EQUALS] + (WriteValue(p.value) + p.after)))
  }

  function MeantParameter(p: ParameterText): Parameter {
    Parameter(Lower(p.name), MeantValue(p.value))
  }

  function WriteParameters(ps: seq<ParameterText>): seq<Byte> {
    if ps == [] then [] else [SEMICOLON] + (WriteParameter(ps[0]) + WriteParameters(ps[1..]))
  }

  function MeantParameters(ps: seq<ParameterText>): (r: seq<Parameter>)
    ensures |r| == |ps|
  {
    if ps == [] then [] else [MeantParameter(ps[0])] + MeantParameters(ps[1..])
  }

  function Essence(sp: Spelling): seq<Byte> {
    sp.top + ([SLASH] + sp.sub)
  }

  function Write(sp: Spelling): seq<Byte> {
    sp.before + (Essence(sp) + (sp.gap + WriteParameters(sp.parameters)) + sp.after)
  }

  /** Case does not matter in the type and in names of parameters, nor does the order of parameters. */
  function Means(sp: Spelling): MediaType {
    MediaType(Lower(Essence(sp)), |sp.top|, Sort(MeantParameters(sp.parameters)))
  }

  predicate Blank(s: seq<Byte>) {
    forall i :: 0 <= i < |s| ==> IsBlank(s[i])
  }

  predicate ProperName(name: seq<Byte>) {
    1 <= |name| <= 127 && IsAlphanumeric(name[0]) && forall i :: 0 <= i < |name| ==> IsNameByte(name[i])
  }

  predicate ProperPieces(ps: seq<Piece>) {
    forall i :: 0 <= i < |ps| && ps[i].Plain? ==> ps[i].b != QUOTE && ps[i].b != BACKSLASH
  }

  predicate ProperParameter(p: ParameterText) {
    && Blank(p.before) && IsToken(p.name) && Blank(p.after)
    && match p.value case AsToken(token) => IsToken(token) case AsString(pieces) => ProperPieces(pieces)
  }

  predicate ProperParameters(ps: seq<ParameterText>) {
    forall i :: 0 <= i < |ps| ==> ProperParameter(ps[i])
  }

  /** Blanks at the very end are counted to `after`. */
  predicate Proper(sp: Spelling) {
    && Blank(sp.before) && Blank(sp.gap) && Blank(sp.after)
    && ProperName(sp.top) && ProperName(sp.sub)
    && ProperParameters(sp.parameters) && |sp.parameters| <= 16 && Distinct(MeantParameters(sp.parameters))
    && (if sp.parameters == [] then sp.gap == [] else sp.parameters[|sp.parameters| - 1].after == [])
  }

  // Blanks.

  lemma {:induction false} TrimsStart(b: seq<Byte>, s: seq<Byte>)
    requires Blank(b) && (s != [] ==> !IsBlank(s[0]))
    ensures TrimStart(b + s) == s
  {
    if b == [] {
      assert b + s == s;
    } else {
      assert (b + s)[1..] == b[1..] + s && IsBlank((b + s)[0]);
      TrimsStart(b[1..], s);
    }
  }

  lemma {:induction false} StartTrimmed(s: seq<Byte>) returns (b: seq<Byte>)
    ensures Blank(b) && s == b + TrimStart(s) && (TrimStart(s) != [] ==> !IsBlank(TrimStart(s)[0]))
  {
    b := [];
    if s != [] && IsBlank(s[0]) {
      var more := StartTrimmed(s[1..]);
      b := [s[0]] + more;
      Assoc([s[0]], more, TrimStart(s));
      assert s == [s[0]] + s[1..];
    } else {
      assert s == b + s;
    }
  }

  lemma {:induction false} TrimsEnd(s: seq<Byte>, b: seq<Byte>)
    requires Blank(b) && (s != [] ==> !IsBlank(s[|s| - 1]))
    ensures TrimEnd(s + b) == s
  {
    if b == [] {
      assert s + b == s;
    } else {
      assert (s + b)[..|s + b| - 1] == s + b[..|b| - 1] && IsBlank((s + b)[|s + b| - 1]);
      TrimsEnd(s, b[..|b| - 1]);
    }
  }

  lemma {:induction false} EndTrimmed(s: seq<Byte>) returns (b: seq<Byte>)
    ensures Blank(b) && s == TrimEnd(s) + b && (TrimEnd(s) != [] ==> !IsBlank(TrimEnd(s)[|TrimEnd(s)| - 1]))
  {
    b := [];
    if s != [] && IsBlank(s[|s| - 1]) {
      var more := EndTrimmed(s[..|s| - 1]);
      b := more + [s[|s| - 1]];
      Assoc(TrimEnd(s), more, [s[|s| - 1]]);
      assert s == s[..|s| - 1] + [s[|s| - 1]];
    } else {
      assert s == s + b;
    }
  }

  // Values.

  lemma {:induction false} PiecesTake(ps: seq<Piece>, rest: seq<Byte>)
    requires ProperPieces(ps)
    ensures TakeQuoted(WritePieces(ps) + rest) == Some(Taken(MeantBytes(ps), rest))
  {
    hide TakeQuoted;
    var text := WritePieces(ps) + rest;
    QuotedStep(text);
    if ps == [] {
      assert text[1..] == rest;
    } else {
      PiecesTake(ps[1..], rest);
      var tail := WritePieces(ps[1..]) + rest;
      assert if ps[0].Plain? then text == [ps[0].b] + tail && text[1..] == tail
             else text == [BACKSLASH, ps[0].b] + tail && text[2..] == tail;
    }
  }

  lemma {:induction false} PiecesTaken(text: seq<Byte>) returns (ps: seq<Piece>)
    requires TakeQuoted(text).Some?
    ensures ProperPieces(ps) && TakeQuoted(text).value.got == MeantBytes(ps) && text == WritePieces(ps) + TakeQuoted(text).value.rest
    decreases |text|
  {
    hide TakeQuoted;
    QuotedStep(text);
    ps := [];
    if text[0] == QUOTE {
      assert text == [QUOTE] + text[1..];
    } else if text[0] == BACKSLASH {
      var more := PiecesTaken(text[2..]);
      ps := [Slashed(text[1])] + more;
      assert ps[1..] == more && text == [BACKSLASH, text[1]] + text[2..];
    } else {
      var more := PiecesTaken(text[1..]);
      ps := [Plain(text[0])] + more;
      assert ps[1..] == more && text == [text[0]] + text[1..];
    }
  }

  /** What ends a token: nothing, a blank, or a byte no token has. */
  predicate Ends(rest: seq<Byte>) {
    rest != [] ==> !IsTokenByte(rest[0])
  }

  lemma ValueTakes(v: ValueText, rest: seq<Byte>)
    requires match v case AsToken(token) => IsToken(token) case AsString(pieces) => ProperPieces(pieces)
    requires Ends(rest)
    ensures TakeValue(WriteValue(v) + rest) == Some(Taken(MeantValue(v), rest))
  {
    hide TakeQuoted, TakeToken, WritePieces, MeantBytes;
    match v {
      case AsToken(token) =>
        TakesToken(token, rest);
        assert IsTokenByte(token[0]) && (token + rest)[0] == token[0];
      case AsString(pieces) =>
        PiecesTake(pieces, rest);
        assert (WriteValue(v) + rest)[1..] == WritePieces(pieces) + rest;
    }
  }

  lemma TokenTakenExactly(text: seq<Byte>)
    requires TakeToken(text).Some?
    ensures var t := TakeToken(text).value; IsToken(t.got) && text == t.got + t.rest && Ends(t.rest)
  {
    hide IsTokenByte;
    TokenTaken(text);
  }

  lemma ValueTaken(text: seq<Byte>) returns (v: ValueText)
    requires TakeValue(text).Some?
    ensures match v case AsToken(token) => IsToken(token) case AsString(pieces) => ProperPieces(pieces)
    ensures var t := TakeValue(text).value; t.got == MeantValue(v) && text == WriteValue(v) + t.rest
  {
    hide TakeQuoted, TakeToken, WritePieces, MeantBytes;
    if text != [] && text[0] == QUOTE {
      var pieces := PiecesTaken(text[1..]);
      v := AsString(pieces);
      Assoc([QUOTE], WritePieces(pieces), TakeValue(text).value.rest);
      assert text == [QUOTE] + text[1..];
    } else {
      TokenTakenExactly(text);
      v := AsToken(TakeToken(text).value.got);
    }
  }

  // Parameters.

  lemma ParameterTakes(p: ParameterText, rest: seq<Byte>)
    requires ProperParameter(p) && (rest != [] ==> rest[0] == SEMICOLON)
    ensures TakeParameter(WriteParameter(p) + rest) == Some(Read(MeantParameter(p), rest))
  {
    hide TakeValue, WriteValue, TakeToken, Lower, MeantValue, TrimStart;
    var value := WriteValue(p.value) + (p.after + rest);
    var named := p.name + ([EQUALS] + value);
    assert WriteParameter(p) + rest == p.before + named;
    assert IsTokenByte(p.name[0]) && named[0] == p.name[0];
    TrimsStart(p.before, named);
    TakesToken(p.name, [EQUALS] + value);
    assert ([EQUALS] + value)[1..] == value;
    assert Ends(p.after + rest) by {
      if p.after != [] {
        assert IsBlank(p.after[0]) && (p.after + rest)[0] == p.after[0];
      } else {
        assert p.after + rest == rest;
      }
    }
    ValueTakes(p.value, p.after + rest);
    TrimsStart(p.after, rest);
  }

  lemma ParameterTaken(text: seq<Byte>) returns (p: ParameterText)
    requires TakeParameter(text).Some?
    ensures ProperParameter(p)
    ensures var r := TakeParameter(text).value; r.parameter == MeantParameter(p) && text == WriteParameter(p) + r.rest
  {
    hide TakeValue, WriteValue, TakeToken, Lower, MeantValue, TrimStart, IsToken, ProperPieces;
    var before := StartTrimmed(text);
    var named := TrimStart(text);
    TokenTakenExactly(named);
    var name := TakeToken(named).value;
    var v := ValueTaken(name.rest[1..]);
    var value := TakeValue(name.rest[1..]).value;
    var after := StartTrimmed(value.rest);
    var rest := TrimStart(value.rest);
    p := ParameterText(before, name.got, v, after);
    Rebuilt(before, name.got, WriteValue(v), after, rest);
    assert name.rest == [EQUALS] + name.rest[1..];
  }

  lemma Rebuilt(before: seq<Byte>, name: seq<Byte>, value: seq<Byte>, after: seq<Byte>, rest: seq<Byte>)
    ensures before + (name + ([EQUALS] + (value + (after + rest)))) == before + (name + ([EQUALS] + (value + after))) + rest
  {
  }

  lemma RestStarts(ps: seq<ParameterText>)
    ensures WriteParameters(ps) != [] ==> WriteParameters(ps)[0] == SEMICOLON
    ensures WriteParameters(ps) == [] <==> ps == []
  {
    hide WriteParameter;
  }

  /** One parameter, of a name not read before. */
  lemma OneTakes(p: ParameterText, rest: seq<Byte>, before: seq<Parameter>)
    requires ProperParameter(p) && (rest != [] ==> rest[0] == SEMICOLON)
    requires |before| < 16 && !HasName(before, MeantParameter(p).name)
    ensures TakeParameters(WriteParameter(p) + rest, before) ==
            if rest == [] then Ok(before + [MeantParameter(p)]) else TakeParameters(rest[1..], before + [MeantParameter(p)])
  {
    hide TakeParameter, WriteParameter, MeantParameter, ProperParameter;
    ParameterTakes(p, rest);
  }

  lemma FirstIsNew(before: seq<Parameter>, p: Parameter, more: seq<Parameter>)
    requires Distinct(before + ([p] + more))
    ensures !HasName(before, p.name) && before + ([p] + more) == (before + [p]) + more
  {
    var all := before + ([p] + more);
    assert all[|before|] == p && forall i :: 0 <= i < |before| ==> all[i] == before[i];
  }

  lemma {:induction false} ParametersTake(ps: seq<ParameterText>, before: seq<Parameter>)
    requires ps != [] && ProperParameters(ps) && |before| + |ps| <= 16 && Distinct(before + MeantParameters(ps))
    ensures WriteParameters(ps) != [] && TakeParameters(WriteParameters(ps)[1..], before) == Ok(before + MeantParameters(ps))
    decreases |ps|
  {
    hide TakeParameters, WriteParameter, MeantParameter, ProperParameter, Distinct, HasName;
    var rest := WriteParameters(ps[1..]);
    assert WriteParameters(ps)[1..] == WriteParameter(ps[0]) + rest;
    RestStarts(ps[1..]);
    var p := MeantParameter(ps[0]);
    FirstIsNew(before, p, MeantParameters(ps[1..]));
    OneTakes(ps[0], rest, before);
    if |ps| > 1 {
      ParametersTake(ps[1..], before + [p]);
    } else {
      assert MeantParameters(ps[1..]) == [];
      assert (before + [p]) + [] == before + [p];
    }
  }

  /** The first of some parameters that parse. */
  lemma OneTaken(text: seq<Byte>, before: seq<Parameter>) returns (p: ParameterText, rest: seq<Byte>)
    requires TakeParameters(text, before).Ok? && Distinct(before) && |before| <= 16
    ensures ProperParameter(p) && text == WriteParameter(p) + rest && |before| < 16 && Distinct(before + [MeantParameter(p)])
    ensures text != [] && (rest == [] && !IsBlank(text[|text| - 1]) ==> p.after == [])
    ensures rest != [] ==> rest[0] == SEMICOLON && text[|text| - 1] == rest[|rest| - 1] && |rest| <= |text|
    ensures var more := before + [MeantParameter(p)];
            TakeParameters(text, before) == if rest == [] then Ok(more) else TakeParameters(rest[1..], more)
  {
    hide TakeParameter, WriteParameter, MeantParameter, ProperParameter;
    p := ParameterTaken(text);
    rest := TakeParameter(text).value.rest;
    LastEnds(p);
    assert WriteParameter(p) + [] == WriteParameter(p);
    assert Distinct(before + [MeantParameter(p)]);
  }

  lemma OneParameter(p: ParameterText)
    ensures MeantParameters([p]) == [MeantParameter(p)] && WriteParameters([p]) == [SEMICOLON] + WriteParameter(p)
  {
    hide MeantParameter, WriteParameter;
    assert [p][1..] == [] && WriteParameter(p) + [] == WriteParameter(p);
  }

  lemma {:induction false} ParametersTaken(text: seq<Byte>, before: seq<Parameter>) returns (ps: seq<ParameterText>)
    requires TakeParameters(text, before).Ok? && Distinct(before) && |before| <= 16
    ensures ps != [] && ProperParameters(ps) && |before| + |ps| <= 16
    ensures TakeParameters(text, before).value == before + MeantParameters(ps) && [SEMICOLON] + text == WriteParameters(ps)
    ensures Distinct(before + MeantParameters(ps))
    ensures text != [] && (!IsBlank(text[|text| - 1]) ==> ps[|ps| - 1].after == [])
    decreases |text|
  {
    hide TakeParameters, WriteParameter, MeantParameter, ProperParameter, Distinct;
    var p, rest := OneTaken(text, before);
    if rest == [] {
      ps := [p];
      OneParameter(p);
      assert WriteParameter(p) + [] == WriteParameter(p);
    } else {
      var more := ParametersTaken(rest[1..], before + [MeantParameter(p)]);
      ps := [p] + more;
      assert ps[1..] == more && ps[0] == p && [SEMICOLON] + rest[1..] == rest;
      assert before + MeantParameters(ps) == (before + [MeantParameter(p)]) + MeantParameters(more);
    }
  }

  lemma LastEnds(p: ParameterText)
    requires ProperParameter(p)
    ensures WriteParameter(p) != [] && (p.after != [] ==> IsBlank(WriteParameter(p)[|WriteParameter(p)| - 1]))
  {
    hide WriteValue;
    if p.after != [] {
      var t := WriteParameter(p);
      assert t[|t| - 1] == p.after[|p.after| - 1];
    }
  }

  lemma ValueEndsWell(v: ValueText)
    requires match v case AsToken(token) => IsToken(token) case AsString(pieces) => ProperPieces(pieces)
    ensures WriteValue(v) != [] && !IsBlank(WriteValue(v)[|WriteValue(v)| - 1])
  {
    match v {
      case AsToken(token) => assert IsTokenByte(token[|token| - 1]);
      case AsString(pieces) => PiecesEnd(pieces);
    }
  }

  lemma {:induction false} PiecesEnd(ps: seq<Piece>)
    ensures WritePieces(ps)[|WritePieces(ps)| - 1] == QUOTE
  {
    if ps != [] {
      PiecesEnd(ps[1..]);
    }
  }

  lemma {:induction false} ParametersEnd(ps: seq<ParameterText>)
    requires ps != [] && ProperParameters(ps) && ps[|ps| - 1].after == []
    ensures WriteParameters(ps) != [] && !IsBlank(WriteParameters(ps)[|WriteParameters(ps)| - 1])
  {
    hide WriteValue;
    if |ps| == 1 {
      assert WriteParameters(ps[1..]) == [];
      ValueEndsWell(ps[0].value);
    } else {
      ParametersEnd(ps[1..]);
    }
  }

  // The type and subtype.

  lemma EssenceReads(sp: Spelling)
    requires ProperName(sp.top) && ProperName(sp.sub)
    ensures var e := Essence(sp);
            && ParseEssence(e) == Ok(|sp.top|) && SEMICOLON !in e
            && e != [] && !IsBlank(e[0]) && !IsBlank(e[|e| - 1])
  {
    var e := Essence(sp);
    assert e[..|sp.top|] == sp.top && e[|sp.top| + 1..] == sp.sub && e[|sp.top|] == SLASH;
    FindFirst(e, SLASH, |sp.top|);
    assert forall i :: 0 <= i < |e| ==> e[i] == SLASH || IsNameByte(e[i]);
  }

  lemma EssenceRead(e: seq<Byte>)
    requires ParseEssence(e).Ok?
    ensures var k := ParseEssence(e).value;
            k < |e| && e[k] == SLASH && ProperName(e[..k]) && ProperName(e[k + 1..]) && e == e[..k] + ([SLASH] + e[k + 1..])
  {
  }

  /** The first semicolon of the trimmed text ends the type, with the blanks behind it. */
  lemma HeadEnds(head: seq<Byte>, ps: seq<ParameterText>)
    requires SEMICOLON !in head
    ensures Find(head + WriteParameters(ps), SEMICOLON) == |head|
    ensures (head + WriteParameters(ps))[..|head|] == head
  {
    hide WriteParameters;
    RestStarts(ps);
    var text := head + WriteParameters(ps);
    if ps == [] {
      assert text == head;
      FindAbsent(head, SEMICOLON);
    } else {
      FindFirst(text, SEMICOLON, |head|);
    }
  }

  /** The trimmed text of a spelling: neither of its ends is blank. */
  lemma Trims(sp: Spelling)
    requires Proper(sp)
    ensures var trimmed := Essence(sp) + (sp.gap + WriteParameters(sp.parameters));
            trimmed != [] && TrimEnd(TrimStart(Write(sp))) == trimmed
  {
    hide Essence, WriteParameters, MeantParameters, TrimStart, TrimEnd, ParseEssence, Find;
    var trimmed := Essence(sp) + (sp.gap + WriteParameters(sp.parameters));
    EssenceReads(sp);
    RestStarts(sp.parameters);
    if sp.parameters != [] {
      ParametersEnd(sp.parameters);
      var w := WriteParameters(sp.parameters);
      assert trimmed[|trimmed| - 1] == w[|w| - 1];
    } else {
      assert trimmed == Essence(sp);
    }
    assert (trimmed + sp.after)[0] == trimmed[0] == Essence(sp)[0];
    TrimsStart(sp.before, trimmed + sp.after);
    TrimsEnd(trimmed, sp.after);
  }

  /** Every proper spelling parses, to what it means. */
  lemma SpellingParses(sp: Spelling)
    requires Proper(sp)
    ensures Parse(Write(sp)) == Ok(Means(sp))
  {
    hide Essence, WriteParameters, MeantParameters, TrimStart, TrimEnd, ParseEssence, Find, TakeParameters, Write, Lower, Sort;
    var e, w := Essence(sp), WriteParameters(sp.parameters);
    Trims(sp);
    EssenceReads(sp);
    Assoc(e, sp.gap, w);
    assert forall i :: 0 <= i < |sp.gap| ==> sp.gap[i] != SEMICOLON;
    HeadEnds(e + sp.gap, sp.parameters);
    TrimsEnd(e, sp.gap);
    RestStarts(sp.parameters);
    if sp.parameters == [] {
      NothingMeant();
    } else {
      assert [] + MeantParameters(sp.parameters) == MeantParameters(sp.parameters);
      ParametersTake(sp.parameters, []);
      assert (e + sp.gap + w)[|e + sp.gap| + 1..] == w[1..];
    }
  }

  lemma NothingMeant()
    ensures MeantParameters([]) == [] && Sort([]) == [] && WriteParameters([]) == []
  {
  }

  /** And whatever parses is spelled so. */
  lemma ParsedIsSpelled(input: seq<Byte>) returns (sp: Spelling)
    requires Parse(input).Ok?
    ensures Proper(sp) && Write(sp) == input
  {
    hide WriteParameters, MeantParameters, TrimStart, TrimEnd, ParseEssence, Find, TakeParameters, Lower, Sort, ProperName, ProperParameters,
      Distinct, Blank;
    var before := StartTrimmed(input);
    var started := TrimStart(input);
    var after := EndTrimmed(started);
    var trimmed := TrimEnd(started);
    var semicolon := Find(trimmed, SEMICOLON);
    var gap := EndTrimmed(trimmed[..semicolon]);
    var e := TrimEnd(trimmed[..semicolon]);
    EssenceRead(e);
    var k := ParseEssence(e).value;
    var ps: seq<ParameterText> := [];
    NothingMeant();
    NothingWrong();
    if semicolon < |trimmed| {
      var text := trimmed[semicolon + 1..];
      ps := ParametersTaken(text, []);
      assert [] + MeantParameters(ps) == MeantParameters(ps);
      assert text[|text| - 1] == trimmed[|trimmed| - 1];
      assert trimmed == trimmed[..semicolon] + ([SEMICOLON] + text);
    } else {
      assert trimmed[..semicolon] == trimmed;
      LastOfTwo(e, gap);
    }
    sp := Spelling(before, e[..k], e[k + 1..], gap, ps, after);
    assert trimmed == e + gap + WriteParameters(ps);
    Assoc(e, gap, WriteParameters(ps));
  }

  lemma LastOfTwo(e: seq<Byte>, gap: seq<Byte>)
    ensures gap != [] ==> (e + gap)[|e + gap| - 1] == gap[|gap| - 1]
    ensures Blank(gap) && gap != [] ==> IsBlank(gap[|gap| - 1])
  {
  }

  lemma NothingWrong()
    ensures ProperParameters([]) && Distinct([])
  {
  }

  /** A text parses if and only if it is a proper spelling, and then to what that spelling means. */
  lemma ParsesExactly(input: seq<Byte>)
    ensures Parse(input).Ok? <==> exists sp :: Proper(sp) && Write(sp) == input
    ensures forall sp :: Proper(sp) && Write(sp) == input ==> Parse(input) == Ok(Means(sp))
  {
    hide Parse, Proper, Write, Means;
    if Parse(input).Ok? {
      var sp := ParsedIsSpelled(input);
    }
    forall sp | Proper(sp) && Write(sp) == input ensures Parse(input) == Ok(Means(sp)) {
      SpellingParses(sp);
    }
  }

  // The canonical spelling.

  /** Backslashes before quotes and backslashes, and nowhere else. */
  function PiecesOf(value: seq<Byte>): seq<Piece> {
    if value == [] then []
    else [if value[0] == '"' as int || value[0] == '\\' as int then Slashed(value[0]) else Plain(value[0])] + PiecesOf(value[1..])
  }

  /** Quotes around values that are no tokens, and around no others; no blanks. */
  function SpellingOf(p: Parameter): ParameterText {
    ParameterText([], p.name, if IsToken(p.value) then AsToken(p.value) else AsString(PiecesOf(p.value)), [])
  }

  function SpellingsOf(ps: seq<Parameter>): (r: seq<ParameterText>)
    ensures |r| == |ps|
  {
    if ps == [] then [] else [SpellingOf(ps[0])] + SpellingsOf(ps[1..])
  }

  function CanonicalSpelling(m: MediaType): Spelling
    requires m.slash < |m.essence|
  {
    Spelling([], m.essence[..m.slash], m.essence[m.slash + 1..], [], SpellingsOf(m.parameters), [])
  }

  lemma {:induction false} PiecesWritten(value: seq<Byte>)
    ensures WritePieces(PiecesOf(value)) == Escape(value) + [QUOTE]
  {
    hide Escape;
    if value == [] {
      assert Escape(value) == [] by { EscapesNothing(); }
      assert [] + [QUOTE] == [QUOTE];
    } else {
      var b, rest := value[0], value[1..];
      assert value == [b] + rest;
      PiecesWritten(rest);
      EscapeFront(b, rest);
      var ps := PiecesOf(value);
      assert ps[1..] == PiecesOf(rest);
      assert WritePieces(ps) == Escaped(b) + WritePieces(ps[1..]);
      Assoc(Escaped(b), Escape(rest), [QUOTE]);
    }
  }

  lemma EscapesNothing()
    ensures Escape([]) == []
  {
  }

  lemma ParameterWritten(p: Parameter)
    ensures WriteParameter(SpellingOf(p)) == RenderParameter(p)
  {
    hide Escape, WritePieces, PiecesOf, IsToken;
    PiecesWritten(p.value);
    var v := WriteValue(SpellingOf(p).value);
    assert v == RenderValue(p.value);
    assert v + [] == v && [] + (p.name + ([EQUALS] + v)) == p.name + ([EQUALS] + v) == p.name + [EQUALS] + v;
  }

  lemma {:induction false} ParametersWritten(ps: seq<Parameter>, k: nat)
    requires k <= |ps|
    ensures WriteParameters(SpellingsOf(ps[k..])) == RenderFrom(ps, k)
    decreases |ps| - k
  {
    hide WriteParameter, RenderParameter, SpellingOf;
    if k < |ps| {
      ParametersWritten(ps, k + 1);
      ParameterWritten(ps[k]);
      assert ps[k..][1..] == ps[k + 1..];
      var all := SpellingsOf(ps[k..]);
      assert all[1..] == SpellingsOf(ps[k + 1..]) && all[0] == SpellingOf(ps[k]);
    } else {
      assert ps[k..] == [];
    }
  }

  /** The text a canonical media type is written as is the spelling without blanks, quotes or backslashes that it can do without. */
  lemma CanonicalText(m: MediaType)
    requires Canonical(m)
    ensures Render(m) == Write(CanonicalSpelling(m))
  {
    hide WriteParameters, RenderFrom, SpellingsOf, RenderParameters, GoodName, GoodParameter, Less;
    var sp := CanonicalSpelling(m);
    RendersFrom(m.parameters, 0);
    assert m.parameters[..0] == [] && m.parameters[0..] == m.parameters;
    RendersNothing();
    ParametersWritten(m.parameters, 0);
    assert m.essence == Essence(sp);
    var w := WriteParameters(sp.parameters);
    assert [] + w == w && [] + (m.essence + w + []) == m.essence + w;
  }
}
