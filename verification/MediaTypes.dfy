/** Media types: parsing, normalising and rendering (src/media_type/parse.rs, src/media_type/mod.rs). */
module MediaTypes {
  import opened Bytes

  const MAX_NAME: nat := 127
  const MAX_PARAMETERS: nat := 16

  datatype Component = TopLevel | Subtype
  datatype Fault =
    | Empty
    | MissingSlash
    | InvalidName(component: Component)
    | NameTooLong(component: Component)
    | MalformedParameter
    | DuplicateParameter(name: seq<Byte>)
    | TooManyParameters

  datatype Result<+T> = Ok(value: T) | Err(fault: Fault)

  datatype Parameter = Parameter(name: seq<Byte>, value: seq<Byte>)

  /** A media type: `type/subtype` in lower case, where its slash is, and its parameters by name. */
  datatype MediaType = MediaType(essence: seq<Byte>, slash: nat, parameters: seq<Parameter>)

  // Bytes of names.

  const SLASH: Byte := 47
  const SEMICOLON: Byte := 59
  const EQUALS: Byte := 61
  const QUOTE: Byte := 34
  const BACKSLASH: Byte := 92

  predicate IsBlank(b: Byte) {
    b == 32 || b == 9
  }

  predicate IsAlphanumeric(b: Byte) {
    48 <= b <= 57 || 65 <= b <= 90 || 97 <= b <= 122
  }

  /** ! # $ & - ^ _ . + and the alphanumerics: section 4.2 of RFC 6838. */
  predicate IsNameByte(b: Byte) {
    IsAlphanumeric(b) || b == 33 || b == 35 || b == 36 || b == 38 || b == 45 || b == 94 || b == 95 || b == 46 || b == 43
  }

  /** Token bytes: ! # $ % & ' * + - . ^ _ ` | ~ and the alphanumerics. */
  predicate IsTokenByte(b: Byte) {
    IsAlphanumeric(b) || b == 33 || 35 <= b <= 39 || b == 42 || b == 43 || b == 45 || b == 46 || 94 <= b <= 96 || b == 124 || b == 126
  }

  predicate IsToken(text: seq<Byte>) {
    text != [] && forall i :: 0 <= i < |text| ==> IsTokenByte(text[i])
  }

  function LowerByte(b: Byte): Byte {
    if 65 <= b <= 90 then b + 32 else b
  }

  function Lower(text: seq<Byte>): (r: seq<Byte>)
    ensures |r| == |text|
  {
    seq(|text|, i requires 0 <= i < |text| => LowerByte(text[i]))
  }

  function TrimStart(text: seq<Byte>): (r: seq<Byte>)
    ensures |r| <= |text|
  {
    if text != [] && IsBlank(text[0]) then TrimStart(text[1..]) else text
  }

  function TrimEnd(text: seq<Byte>): seq<Byte> {
    if text != [] && IsBlank(text[|text| - 1]) then TrimEnd(text[..|text| - 1]) else text
  }

  function CheckName(name: seq<Byte>, component: Component): Option<Fault> {
    if |name| > MAX_NAME then Some(NameTooLong(component))
    else if name == [] || !IsAlphanumeric(name[0]) || exists i :: 0 <= i < |name| && !IsNameByte(name[i]) then Some(InvalidName(component))
    else None
  }

  // Parameters: name=value, separated by semicolons; a value is a token or a quoted string.

  function TokenLen(text: seq<Byte>): (n: nat)
    ensures n <= |text|
  {
    if text != [] && IsTokenByte(text[0]) then 1 + TokenLen(text[1..]) else 0
  }

  /** What a cursor has read, and what is left. */
  datatype Taken = Taken(got: seq<Byte>, rest: seq<Byte>)

  /** A quoted string, after its opening quote. */
  function TakeQuoted(text: seq<Byte>): (r: Option<Taken>)
    ensures r.Some? ==> |r.value.rest| <= |text|
  {
    if text == [] then None
    else if text[0] == QUOTE then Some(Taken([], text[1..]))
    else if text[0] == BACKSLASH then
      if |text| < 2 then None
      else
        match TakeQuoted(text[2..])
        case None => None
        case Some(t) => Some(t.(got := [text[1]] + t.got))
    else
      match TakeQuoted(text[1..])
      case None => None
      case Some(t) => Some(t.(got := [text[0]] + t.got))
  }

  function TakeToken(text: seq<Byte>): (r: Option<Taken>)
    ensures r.Some? ==> |r.value.rest| <= |text|
  {
    var n := TokenLen(text);
    if n == 0 then None else Some(Taken(text[..n], text[n..]))
  }

  function TakeValue(text: seq<Byte>): (r: Option<Taken>)
    ensures r.Some? ==> |r.value.rest| <= |text|
  {
    if text != [] && text[0] == QUOTE then TakeQuoted(text[1..]) else TakeToken(text)
  }

  predicate HasName(ps: seq<Parameter>, name: seq<Byte>) {
    exists i :: 0 <= i < |ps| && ps[i].name == name
  }

  /** A parameter read from the text, and what is left after it. */
  datatype Read = Read(parameter: Parameter, rest: seq<Byte>)

  function TakeParameter(text: seq<Byte>): (r: Option<Read>)
    ensures r.Some? ==> |r.value.rest| < |text|
  {
    match TakeToken(TrimStart(text))
    case None => None
    case Some(name) =>
      if name.rest == [] || name.rest[0] != EQUALS then None
      else
        match TakeValue(name.rest[1..])
        case None => None
        case Some(value) => Some(Read(Parameter(Lower(name.got), value.got), TrimStart(value.rest)))
  }

  /** The parameters in `text`, after those already read. */
  function TakeParameters(text: seq<Byte>, before: seq<Parameter>): Result<seq<Parameter>>
    decreases |text|
  {
    match TakeParameter(text)
    case None => Err(MalformedParameter)
    case Some(r) =>
      if HasName(before, r.parameter.name) then Err(DuplicateParameter(r.parameter.name))
      else if |before| == MAX_PARAMETERS then Err(TooManyParameters)
      else if r.rest == [] then Ok(before + [r.parameter])
      else if r.rest[0] != SEMICOLON then Err(MalformedParameter)
      else TakeParameters(r.rest[1..], before + [r.parameter])
  }

  // Order of parameters: by name, bytewise.

  predicate Less(a: seq<Byte>, b: seq<Byte>) {
    if b == [] then false
    else if a == [] then true
    else a[0] < b[0] || (a[0] == b[0] && Less(a[1..], b[1..]))
  }

  /** Put a parameter where it belongs in a sorted list. */
  function Insert(p: Parameter, ps: seq<Parameter>): seq<Parameter> {
    if ps == [] || !Less(p.name, ps[|ps| - 1].name) then ps + [p] else Insert(p, ps[..|ps| - 1]) + [ps[|ps| - 1]]
  }

  function Sort(ps: seq<Parameter>): seq<Parameter> {
    if ps == [] then [] else Insert(ps[|ps| - 1], Sort(ps[..|ps| - 1]))
  }

  function ParseEssence(text: seq<Byte>): Result<nat> {
    var slash := Find(text, SLASH);
    if slash == |text| then Err(MissingSlash)
    else
      var first, second := CheckName(text[..slash], TopLevel), CheckName(text[slash + 1..], Subtype);
      if first.Some? then Err(first.value) else if second.Some? then Err(second.value) else Ok(slash)
  }

  function Parse(input: seq<Byte>): Result<MediaType> {
    var trimmed := TrimEnd(TrimStart(input));
    if trimmed == [] then Err(Empty)
    else
      var semicolon := Find(trimmed, SEMICOLON);
      var essence := TrimEnd(trimmed[..semicolon]);
      match ParseEssence(essence)
      case Err(f) => Err(f)
      case Ok(slash) =>
        if semicolon == |trimmed| then Ok(MediaType(Lower(essence), slash, []))
        else
          match TakeParameters(trimmed[semicolon + 1..], [])
          case Err(f) => Err(f)
          case Ok(ps) => Ok(MediaType(Lower(essence), slash, Sort(ps)))
  }

  // The cursor over the parameter text.

  class Cursor {
    const text: seq<Byte>
    var pos: nat

    ghost predicate Valid()
      reads this
    {
      pos <= |text|
    }

    ghost function Rest(): seq<Byte>
      requires Valid()
      reads this
    {
      text[pos..]
    }

    constructor (text: seq<Byte>)
      ensures Valid() && Rest() == text
    {
      this.text, pos := text, 0;
    }

    predicate AtEnd()
      requires Valid()
      reads this
      ensures AtEnd() <==> Rest() == []
    {
      pos >= |text|
    }

    method SkipWhitespace()
      requires Valid()
      modifies this
      ensures Valid() && Rest() == TrimStart(old(Rest()))
    {
      while pos < |text| && IsBlank(text[pos])
        invariant Valid() && TrimStart(Rest()) == TrimStart(old(Rest()))
        decreases |text| - pos
      {
        assert text[pos..][1..] == text[pos + 1..];
        pos := pos + 1;
      }
    }

    method Expect(b: Byte) returns (ok: bool)
      requires Valid()
      modifies this
      ensures Valid() && ok == (old(Rest()) != [] && old(Rest())[0] == b)
      ensures Rest() == if ok then old(Rest())[1..] else old(Rest())
    {
      ok := pos < |text| && text[pos] == b;
      if ok {
        assert text[pos..][1..] == text[pos + 1..];
        pos := pos + 1;
      }
    }

    method Token() returns (token: Option<seq<Byte>>)
      requires Valid()
      modifies this
      ensures Valid()
      ensures match TakeToken(old(Rest()))
              case None => token == None
              case Some(t) => token == Some(t.got) && Rest() == t.rest
    {
      var start := pos;
      while pos < |text| && IsTokenByte(text[pos])
        invariant start <= pos <= |text|
        invariant TokenLen(text[start..]) == pos - start + TokenLen(text[pos..])
        decreases |text| - pos
      {
        assert text[pos..][1..] == text[pos + 1..];
        pos := pos + 1;
      }
      if pos == start {
        return None;
      }
      assert text[start..][..pos - start] == text[start..pos] && text[start..][pos - start..] == text[pos..];
      token := Some(text[start..pos]);
    }

    /** A token or a quoted string, unescaped. */
    method Value() returns (value: Option<seq<Byte>>)
      requires Valid()
      modifies this
      ensures Valid()
      ensures match TakeValue(old(Rest()))
              case None => value == None
              case Some(t) => value == Some(t.got) && Rest() == t.rest
    {
      hide TakeQuoted, TakeToken;
      if pos >= |text| || text[pos] != QUOTE {
        value := Token();
        return;
      }
      assert text[pos..][1..] == text[pos + 1..];
      pos := pos + 1;
      value := Quoted();
    }

    /** The rest of a quoted string, up to its closing quote. */
    method Quoted() returns (value: Option<seq<Byte>>)
      requires Valid()
      modifies this
      ensures Valid()
      ensures match TakeQuoted(old(Rest()))
              case None => value == None
              case Some(t) => value == Some(t.got) && Rest() == t.rest
    {
      hide TakeQuoted, Prepend;
      ghost var whole := TakeQuoted(Rest());
      var got: seq<Byte> := [];
      PrependNothing(whole);
      while pos < |text|
        invariant Valid()
        invariant whole == Prepend(got, TakeQuoted(Rest()))
        decreases |text| - pos
      {
        var b := text[pos];
        QuotedStep(Rest());
        assert Rest()[0] == b && Rest()[1..] == text[pos + 1..];
        if b == QUOTE {
          PrependEmpty(got, text[pos + 1..]);
          pos := pos + 1;
          return Some(got);
        }
        if b == BACKSLASH {
          PrependNone(got);
          if pos + 1 >= |text| {
            return None;
          }
          assert Rest()[2..] == text[pos + 2..] && Rest()[1] == text[pos + 1];
          PrependMore(got, text[pos + 1], TakeQuoted(text[pos + 2..]));
          got := got + [text[pos + 1]];
          pos := pos + 2;
        } else {
          PrependMore(got, b, TakeQuoted(text[pos + 1..]));
          got := got + [b];
          pos := pos + 1;
        }
      }
      QuotedStep(Rest());
      PrependNone(got);
      value := None;
    }
  }

  /** One judgement inside a quoted string. */
  lemma QuotedStep(text: seq<Byte>)
    ensures TakeQuoted(text) ==
            if text == [] then None
            else if text[0] == QUOTE then Some(Taken([], text[1..]))
            else if text[0] != BACKSLASH then Prepend([text[0]], TakeQuoted(text[1..]))
            else if |text| < 2 then None
            else Prepend([text[1]], TakeQuoted(text[2..]))
  {
  }

  function Prepend(got: seq<Byte>, r: Option<Taken>): Option<Taken> {
    match r
    case None => None
    case Some(t) => Some(t.(got := got + t.got))
  }

  lemma PrependNothing(r: Option<Taken>)
    ensures Prepend([], r) == r
  {
    if r.Some? {
      assert [] + r.value.got == r.value.got;
    }
  }

  lemma PrependEmpty(got: seq<Byte>, rest: seq<Byte>)
    ensures Prepend(got, Some(Taken([], rest))) == Some(Taken(got, rest))
  {
    assert got + [] == got;
  }

  lemma PrependNone(got: seq<Byte>)
    ensures Prepend(got, None) == None
  {
  }

  lemma PrependMore(got: seq<Byte>, b: Byte, r: Option<Taken>)
    ensures Prepend(got + [b], r) == Prepend(got, Prepend([b], r))
  {
    if r.Some? {
      Assoc(got, [b], r.value.got);
    }
  }

  /** One parameter, with the blanks around it. */
  method ReadParameter(cursor: Cursor) returns (p: Option<Parameter>)
    requires cursor.Valid()
    modifies cursor
    ensures cursor.Valid()
    ensures match TakeParameter(old(cursor.Rest()))
            case None => p == None
            case Some(r) => p == Some(r.parameter) && cursor.Rest() == r.rest
  {
    hide TakeToken, TakeValue, TrimStart, Lower;
    cursor.SkipWhitespace();
    var name := cursor.Token();
    if name.None? {
      return None;
    }
    var equals := cursor.Expect(EQUALS);
    if !equals {
      return None;
    }
    var value := cursor.Value();
    if value.None? {
      return None;
    }
    cursor.SkipWhitespace();
    p := Some(Parameter(Lower(name.value), value.value));
  }

  method IsRepeated(ps: seq<Parameter>, name: seq<Byte>) returns (repeated: bool)
    ensures repeated <==> HasName(ps, name)
  {
    repeated := false;
    for i := 0 to |ps|
      invariant repeated <==> exists j :: 0 <= j < i && ps[j].name == name
    {
      repeated := repeated || ps[i].name == name;
    }
  }

  method ParseParameters(text: seq<Byte>) returns (r: Result<seq<Parameter>>)
    ensures r == match TakeParameters(text, []) case Err(f) => Err(f) case Ok(ps) => Ok(Sort(ps))
  {
    hide TakeParameter, Sort, HasName;
    var cursor := new Cursor(text);
    var ps: seq<Parameter> := [];
    while true
      invariant cursor.Valid() && fresh(cursor)
      invariant TakeParameters(text, []) == TakeParameters(cursor.Rest(), ps)
      decreases |cursor.Rest()|
    {
      var p := ReadParameter(cursor);
      if p.None? {
        return Err(MalformedParameter);
      }
      var repeated := IsRepeated(ps, p.value.name);
      if repeated {
        return Err(DuplicateParameter(p.value.name));
      }
      if |ps| == MAX_PARAMETERS {
        return Err(TooManyParameters);
      }
      ps := ps + [p.value];
      if cursor.AtEnd() {
        break;
      }
      var more := cursor.Expect(SEMICOLON);
      if !more {
        return Err(MalformedParameter);
      }
    }
    r := Ok(Sort(ps));
  }

  // Rendering.

  /** A byte of a quoted string: quotes and backslashes are escaped. */
  function Escaped(b: Byte): seq<Byte> {
    if b == QUOTE || b == BACKSLASH then [BACKSLASH, b] else [b]
  }

  function Escape(value: seq<Byte>): seq<Byte> {
    if value == [] then []
    else
      var b := value[|value| - 1];
      Escape(value[..|value| - 1]) + Escaped(b)
  }

  function RenderValue(value: seq<Byte>): seq<Byte> {
    if IsToken(value) then value else [QUOTE] + Escape(value) + [QUOTE]
  }

  function RenderParameter(p: Parameter): seq<Byte> {
    p.name + [EQUALS] + RenderValue(p.value)
  }

  function RenderParameters(ps: seq<Parameter>): seq<Byte> {
    if ps == [] then []
    else RenderParameters(ps[..|ps| - 1]) + ([SEMICOLON] + RenderParameter(ps[|ps| - 1]))
  }

  function Render(m: MediaType): seq<Byte> {
    m.essence + RenderParameters(m.parameters)
  }

  /** A value, quoted only when it is not a token. */
  method DisplayValue(value: seq<Byte>) returns (out: seq<Byte>)
    ensures out == RenderValue(value)
  {
    if IsToken(value) {
      return value;
    }
    out := [QUOTE];
    assert value[..0] == [];
    for j := 0 to |value|
      invariant out == [QUOTE] + Escape(value[..j])
    {
      assert value[..j + 1][..j] == value[..j];
      var b := value[j];
      if b == QUOTE || b == BACKSLASH {
        out := out + [BACKSLASH];
      }
      out := out + [b];
    }
    assert value[..|value|] == value;
    out := out + [QUOTE];
  }

  /** The canonical text, written piece by piece. */
  method Display(m: MediaType) returns (out: seq<Byte>)
    ensures out == Render(m)
  {
    hide RenderValue;
    out := m.essence;
    for i := 0 to |m.parameters|
      invariant out == m.essence + RenderParameters(m.parameters[..i])
    {
      var p := m.parameters[i];
      assert m.parameters[..i + 1][..i] == m.parameters[..i];
      ghost var before := out;
      out := out + ([SEMICOLON] + p.name + [EQUALS]);
      var value := DisplayValue(p.value);
      out := out + value;
      assert out == before + ([SEMICOLON] + RenderParameter(p));
    }
    assert m.parameters[..|m.parameters|] == m.parameters;
  }

  // What parsing yields.

  predicate GoodName(name: seq<Byte>) {
    CheckName(name, TopLevel).None? && Lower(name) == name
  }

  predicate GoodParameter(p: Parameter) {
    IsToken(p.name) && Lower(p.name) == p.name
  }

  /** Parameters strictly in the order of their names. */
  predicate Sorted(ps: seq<Parameter>) {
    forall i, j :: 0 <= i < j < |ps| ==> Less(ps[i].name, ps[j].name)
  }

  /** A media type in its canonical form. */
  predicate Canonical(m: MediaType) {
    && m.slash < |m.essence| && m.essence[m.slash] == SLASH
    && GoodName(m.essence[..m.slash]) && GoodName(m.essence[m.slash + 1..])
    && |m.parameters| <= MAX_PARAMETERS && Sorted(m.parameters)
    && forall i :: 0 <= i < |m.parameters| ==> GoodParameter(m.parameters[i])
  }

  // The order of names.

  lemma {:induction false} LessTotal(a: seq<Byte>, b: seq<Byte>)
    ensures Less(a, b) || a == b || Less(b, a)
    ensures !(Less(a, b) && Less(b, a)) && (a == b ==> !Less(a, b))
    decreases |a|
  {
    if a != [] && b != [] {
      LessTotal(a[1..], b[1..]);
      if a[0] == b[0] && a[1..] == b[1..] {
        assert a == [a[0]] + a[1..] && b == [b[0]] + b[1..];
      }
    }
  }

  lemma {:induction false} LessTransitive(a: seq<Byte>, b: seq<Byte>, c: seq<Byte>)
    requires Less(a, b) && Less(b, c)
    ensures Less(a, c)
    decreases |a|
  {
    if a != [] && a[0] == b[0] == c[0] {
      LessTransitive(a[1..], b[1..], c[1..]);
    }
  }

  /** Sorting keeps exactly the parameters, each as often as before. */
  lemma {:induction false} InsertKeeps(p: Parameter, ps: seq<Parameter>)
    ensures multiset(Insert(p, ps)) == multiset(ps) + multiset{p}
  {
    if ps != [] && Less(p.name, ps[|ps| - 1].name) {
      InsertKeeps(p, ps[..|ps| - 1]);
      assert ps == ps[..|ps| - 1] + [ps[|ps| - 1]];
    }
  }

  lemma {:induction false} SortKeeps(ps: seq<Parameter>)
    ensures multiset(Sort(ps)) == multiset(ps)
  {
    hide Insert;
    if ps != [] {
      SortKeeps(ps[..|ps| - 1]);
      InsertKeeps(ps[|ps| - 1], Sort(ps[..|ps| - 1]));
      assert ps == ps[..|ps| - 1] + [ps[|ps| - 1]];
    }
  }

  lemma KeepsMembers(ps: seq<Parameter>)
    ensures |Sort(ps)| == |ps| && forall p :: p in Sort(ps) <==> p in ps
  {
    SortKeeps(ps);
    assert |multiset(Sort(ps))| == |multiset(ps)|;
    assert forall p :: p in Sort(ps) <==> p in multiset(Sort(ps));
    assert forall p :: p in ps <==> p in multiset(ps);
  }

  lemma {:induction false} InsertSorts(p: Parameter, ps: seq<Parameter>)
    requires Sorted(ps) && !HasName(ps, p.name)
    ensures Sorted(Insert(p, ps))
  {
    if ps == [] {
    } else {
      var front, last := ps[..|ps| - 1], ps[|ps| - 1];
      LessTotal(p.name, last.name);
      if Less(p.name, last.name) {
        assert !HasName(front, p.name);
        InsertSorts(p, front);
        InsertKeeps(p, front);
        var r := Insert(p, front);
        forall i | 0 <= i < |r| ensures Less(r[i].name, last.name) {
          assert r[i] in multiset(r);
          assert r[i] in front || r[i] == p;
        }
      } else {
        forall i | 0 <= i < |ps| ensures Less(ps[i].name, p.name) {
          if i < |ps| - 1 {
            LessTransitive(ps[i].name, last.name, p.name);
          }
        }
      }
    }
  }

  /** No two parameters have the same name. */
  predicate Distinct(ps: seq<Parameter>) {
    forall i, j :: 0 <= i < j < |ps| ==> ps[i].name != ps[j].name
  }

  lemma {:induction false} SortSorts(ps: seq<Parameter>)
    requires Distinct(ps)
    ensures Sorted(Sort(ps))
  {
    if ps != [] {
      var front, last := ps[..|ps| - 1], ps[|ps| - 1];
      SortSorts(front);
      KeepsMembers(front);
      forall i | 0 <= i < |Sort(front)| ensures Sort(front)[i].name != last.name {
        assert Sort(front)[i] in front;
      }
      InsertSorts(last, Sort(front));
    }
  }

  lemma {:induction false} SortedStays(ps: seq<Parameter>)
    requires Sorted(ps)
    ensures Sort(ps) == ps
  {
    if ps != [] {
      var front, last := ps[..|ps| - 1], ps[|ps| - 1];
      SortedStays(front);
      if front != [] {
        LessTotal(front[|front| - 1].name, last.name);
      }
    }
  }

  // Parsing yields canonical media types.

  lemma {:induction false} TokenTaken(text: seq<Byte>)
    ensures forall i :: 0 <= i < TokenLen(text) ==> IsTokenByte(text[i])
    ensures TokenLen(text) < |text| ==> !IsTokenByte(text[TokenLen(text)])
  {
    if text != [] && IsTokenByte(text[0]) {
      TokenTaken(text[1..]);
    }
  }

  lemma LowerToken(text: seq<Byte>)
    requires IsToken(text)
    ensures IsToken(Lower(text)) && Lower(Lower(text)) == Lower(text)
  {
  }

  lemma TakenIsGood(text: seq<Byte>)
    requires TakeParameter(text).Some?
    ensures GoodParameter(TakeParameter(text).value.parameter)
  {
    hide TakeValue, IsTokenByte, LowerByte;
    TokenTaken(TrimStart(text));
    LowerToken(TakeToken(TrimStart(text)).value.got);
  }

  predicate AllGood(ps: seq<Parameter>) {
    Distinct(ps) && |ps| <= MAX_PARAMETERS && forall i :: 0 <= i < |ps| ==> GoodParameter(ps[i])
  }

  lemma {:induction false} ParametersAreGood(text: seq<Byte>, before: seq<Parameter>)
    requires AllGood(before) && TakeParameters(text, before).Ok?
    ensures AllGood(TakeParameters(text, before).value)
    decreases |text|
  {
    hide TakeParameter, GoodParameter;
    TakenIsGood(text);
    var r := TakeParameter(text).value;
    assert Distinct(before + [r.parameter]);
    if r.rest != [] {
      ParametersAreGood(r.rest[1..], before + [r.parameter]);
    }
  }

  lemma LowerName(name: seq<Byte>, component: Component)
    requires CheckName(name, component).None?
    ensures GoodName(Lower(name))
  {
  }

  lemma EssenceIsGood(text: seq<Byte>)
    requires ParseEssence(text).Ok?
    ensures var slash, e := ParseEssence(text).value, Lower(text);
            slash < |e| && e[slash] == SLASH && GoodName(e[..slash]) && GoodName(e[slash + 1..])
  {
    hide CheckName, GoodName;
    var slash := Find(text, SLASH);
    LowerName(text[..slash], TopLevel);
    LowerName(text[slash + 1..], Subtype);
    assert Lower(text)[..slash] == Lower(text[..slash]) && Lower(text)[slash + 1..] == Lower(text[slash + 1..]);
  }

  /** Whatever is parsed is canonical: lower-case names, parameters in order of their distinct names. */
  lemma ParsesToCanonical(input: seq<Byte>)
    requires Parse(input).Ok?
    ensures Canonical(Parse(input).value)
  {
    hide TakeParameters, Sort, ParseEssence, Lower, GoodName, GoodParameter, TrimStart, TrimEnd, Find, Less;
    var trimmed := TrimEnd(TrimStart(input));
    var semicolon := Find(trimmed, SEMICOLON);
    EssenceIsGood(TrimEnd(trimmed[..semicolon]));
    if semicolon < |trimmed| {
      var rest := trimmed[semicolon + 1..];
      ParametersAreGood(rest, []);
      var ps := TakeParameters(rest, []).value;
      SortSorts(ps);
      KeepsMembers(ps);
      forall i | 0 <= i < |Sort(ps)| ensures GoodParameter(Sort(ps)[i]) {
        assert Sort(ps)[i] in ps;
      }
    }
  }

  // Rendering and parsing again.

  lemma {:induction false} TokenStops(token: seq<Byte>, rest: seq<Byte>)
    requires (forall i :: 0 <= i < |token| ==> IsTokenByte(token[i])) && (rest != [] ==> !IsTokenByte(rest[0]))
    ensures TokenLen(token + rest) == |token|
  {
    hide IsTokenByte;
    if token == [] {
      assert token + rest == rest;
    } else {
      assert (token + rest)[1..] == token[1..] + rest;
      TokenStops(token[1..], rest);
    }
  }

  lemma TakesToken(token: seq<Byte>, rest: seq<Byte>)
    requires IsToken(token) && (rest != [] ==> !IsTokenByte(rest[0]))
    ensures TakeToken(token + rest) == Some(Taken(token, rest))
  {
    hide IsTokenByte;
    TokenStops(token, rest);
    assert (token + rest)[..|token|] == token && (token + rest)[|token|..] == rest;
  }

  lemma {:induction false} EscapeFront(b: Byte, value: seq<Byte>)
    ensures Escape([b] + value) == Escaped(b) + Escape(value)
  {
    hide Escaped;
    if value == [] {
      assert [b] + value == [b] && [b][..0] == [];
    } else {
      var front, last := value[..|value| - 1], value[|value| - 1];
      assert ([b] + value)[..|value|] == [b] + front;
      EscapeFront(b, front);
      Assoc(Escaped(b), Escape(front), Escaped(last));
    }
  }

  lemma TakesEscaped(b: Byte, tail: seq<Byte>)
    ensures TakeQuoted(Escaped(b) + tail) == Prepend([b], TakeQuoted(tail))
  {
    var text := Escaped(b) + tail;
    QuotedStep(text);
    if b == QUOTE || b == BACKSLASH {
      assert text[0] == BACKSLASH && text[1] == b && text[2..] == tail;
    } else {
      assert text[0] == b && text[1..] == tail;
    }
  }

  /** A quoted value is read back whole, whatever quotes and backslashes it holds. */
  lemma {:induction false} TakesQuoted(value: seq<Byte>, rest: seq<Byte>)
    ensures TakeQuoted(Escape(value) + ([QUOTE] + rest)) == Some(Taken(value, rest))
  {
    hide TakeQuoted, Escaped;
    var tail := [QUOTE] + rest;
    if value == [] {
      assert Escape(value) + tail == tail && tail[1..] == rest;
      QuotedStep(tail);
    } else {
      var b, more := value[0], value[1..];
      assert value == [b] + more;
      EscapeFront(b, more);
      TakesQuoted(more, rest);
      Assoc(Escaped(b), Escape(more), tail);
      TakesEscaped(b, Escape(more) + tail);
    }
  }

  lemma TakesValue(value: seq<Byte>, rest: seq<Byte>)
    requires rest != [] ==> rest[0] == SEMICOLON
    ensures TakeValue(RenderValue(value) + rest) == Some(Taken(value, rest))
  {
    hide TakeQuoted, Escape;
    if IsToken(value) {
      TakesToken(value, rest);
      assert IsTokenByte(value[0]);
      assert (value + rest)[0] == value[0];
    } else {
      TakesQuoted(value, rest);
      var text := RenderValue(value) + rest;
      assert text[1..] == Escape(value) + ([QUOTE] + rest);
    }
  }

  lemma TakesParameter(p: Parameter, rest: seq<Byte>)
    requires GoodParameter(p) && (rest != [] ==> rest[0] == SEMICOLON)
    ensures TakeParameter(RenderParameter(p) + rest) == Some(Read(p, rest))
  {
    hide TakeValue, RenderValue, TakeToken, Lower;
    var after := [EQUALS] + (RenderValue(p.value) + rest);
    var text := RenderParameter(p) + rest;
    assert text == p.name + after;
    assert IsTokenByte(p.name[0]) && text[0] == p.name[0];
    TakesToken(p.name, after);
    assert after[1..] == RenderValue(p.value) + rest;
    TakesValue(p.value, rest);
  }

  /** The parameters from the `k`-th on, as they are rendered. */
  function RenderFrom(ps: seq<Parameter>, k: nat): seq<Byte>
    requires k <= |ps|
    decreases |ps| - k
  {
    if k == |ps| then [] else ([SEMICOLON] + RenderParameter(ps[k])) + RenderFrom(ps, k + 1)
  }

  lemma {:induction false} RendersFrom(ps: seq<Parameter>, k: nat)
    requires k <= |ps|
    ensures RenderParameters(ps) == RenderParameters(ps[..k]) + RenderFrom(ps, k)
    decreases |ps| - k
  {
    hide RenderParameter;
    if k == |ps| {
      assert ps[..k] == ps;
    } else {
      RendersFrom(ps, k + 1);
      assert ps[..k + 1][..k] == ps[..k];
      Assoc(RenderParameters(ps[..k]), [SEMICOLON] + RenderParameter(ps[k]), RenderFrom(ps, k + 1));
    }
  }

  lemma NotYet(ps: seq<Parameter>, k: nat)
    requires Sorted(ps) && k < |ps|
    ensures !HasName(ps[..k], ps[k].name)
  {
    hide Less;
    forall i | 0 <= i < k ensures ps[i].name != ps[k].name {
      assert Less(ps[i].name, ps[k].name);
      LessTotal(ps[i].name, ps[k].name);
    }
  }

  lemma {:induction false} TakesParameters(ps: seq<Parameter>, k: nat)
    requires k < |ps| <= MAX_PARAMETERS && Sorted(ps) && forall i :: 0 <= i < |ps| ==> GoodParameter(ps[i])
    ensures TakeParameters(RenderFrom(ps, k)[1..], ps[..k]) == Ok(ps)
    decreases |ps| - k
  {
    hide TakeParameter, RenderParameter, GoodParameter, Sorted, HasName;
    var rest := RenderFrom(ps, k + 1);
    assert RenderFrom(ps, k)[1..] == RenderParameter(ps[k]) + rest;
    TakesParameter(ps[k], rest);
    NotYet(ps, k);
    assert ps[..k] + [ps[k]] == ps[..k + 1];
    if k + 1 < |ps| {
      TakesParameters(ps, k + 1);
    } else {
      assert ps[..k + 1] == ps;
    }
  }

  // The ends of the rendered text are not blank, and its first semicolon ends the essence.

  lemma EssenceBytes(m: MediaType, i: nat)
    requires Canonical(m) && i < |m.essence|
    ensures m.essence[i] == SLASH || IsNameByte(m.essence[i])
    ensures i < m.slash ==> m.essence[i] != SLASH
  {
    hide Lower, Less, Sorted, GoodParameter;
    var e := m.essence;
    if i < m.slash {
      assert e[..m.slash][i] == e[i];
    } else if i > m.slash {
      assert e[m.slash + 1..][i - m.slash - 1] == e[i];
    }
  }

  lemma LastByte(m: MediaType)
    requires Canonical(m)
    ensures Render(m) != [] && !IsBlank(Render(m)[0]) && !IsBlank(Render(m)[|Render(m)| - 1])
    ensures m.essence != [] && !IsBlank(m.essence[|m.essence| - 1])
  {
    hide Lower, Less, Escape, GoodName;
    EssenceBytes(m, 0);
    EssenceBytes(m, |m.essence| - 1);
    if m.parameters != [] {
      var p := m.parameters[|m.parameters| - 1];
      ValueEnds(p.value);
      var v := RenderValue(p.value);
      assert Render(m)[|Render(m)| - 1] == v[|v| - 1];
    }
  }

  lemma ValueEnds(value: seq<Byte>)
    ensures RenderValue(value) != [] && !IsBlank(RenderValue(value)[|RenderValue(value)| - 1])
  {
    hide Escape;
    if IsToken(value) {
      assert IsTokenByte(value[|value| - 1]);
    }
  }

  lemma LowerAt(text: seq<Byte>, i: nat)
    requires Lower(text) == text && i < |text|
    ensures LowerByte(text[i]) == text[i]
  {
    assert Lower(text)[i] == LowerByte(text[i]);
  }

  lemma EssenceParses(m: MediaType)
    requires Canonical(m)
    ensures ParseEssence(m.essence) == Ok(m.slash) && Lower(m.essence) == m.essence
  {
    hide Less, Sorted, GoodParameter;
    var e := m.essence;
    forall i | 0 <= i < |e| ensures LowerByte(e[i]) == e[i] {
      if i < m.slash {
        LowerAt(e[..m.slash], i);
        assert e[..m.slash][i] == e[i];
      } else if i > m.slash {
        LowerAt(e[m.slash + 1..], i - m.slash - 1);
        assert e[m.slash + 1..][i - m.slash - 1] == e[i];
      }
    }
    assert Lower(e) == e;
    forall i | 0 <= i < m.slash ensures e[i] != SLASH {
      EssenceBytes(m, i);
    }
    FindFirst(e, SLASH, m.slash);
  }

  lemma NoSemicolon(m: MediaType)
    requires Canonical(m)
    ensures SEMICOLON !in m.essence
  {
    hide Canonical;
    forall i | 0 <= i < |m.essence| ensures m.essence[i] != SEMICOLON {
      EssenceBytes(m, i);
    }
  }

  lemma SemicolonEnds(m: MediaType)
    requires Canonical(m)
    ensures Find(Render(m), SEMICOLON) == |m.essence| && Render(m)[..|m.essence|] == m.essence
    ensures m.parameters == [] <==> |m.essence| == |Render(m)|
  {
    hide Canonical, RenderParameter;
    NoSemicolon(m);
    if m.parameters == [] {
      assert Render(m) == m.essence;
      FindAbsent(m.essence, SEMICOLON);
    } else {
      RendersFrom(m.parameters, 0);
      assert m.parameters[..0] == [];
      assert Render(m)[|m.essence|] == RenderFrom(m.parameters, 0)[0] == SEMICOLON;
      FindFirst(Render(m), SEMICOLON, |m.essence|);
    }
  }

  /** Nothing of a rendered text is trimmed. */
  lemma NotTrimmed(m: MediaType)
    requires Canonical(m)
    ensures Render(m) != [] && TrimEnd(TrimStart(Render(m))) == Render(m) && TrimEnd(m.essence) == m.essence
  {
    hide Canonical, Render;
    LastByte(m);
  }

  lemma ParametersBack(m: MediaType)
    requires Canonical(m) && m.parameters != []
    ensures |m.essence| < |Render(m)| && TakeParameters(Render(m)[|m.essence| + 1..], []) == Ok(m.parameters) && Sort(m.parameters) == m.parameters
  {
    hide TakeParameters, RenderParameters, RenderParameter, Less, Sort, GoodName, Lower;
    RendersFrom(m.parameters, 0);
    assert m.parameters[..0] == [];
    RendersNothing();
    assert Render(m)[|m.essence|..] == RenderFrom(m.parameters, 0);
    assert Render(m)[|m.essence| + 1..] == RenderFrom(m.parameters, 0)[1..];
    TakesParameters(m.parameters, 0);
    SortedStays(m.parameters);
  }

  /** A canonical media type is read back from its text: for every value, empty or with quotes, backslashes, semicolons or spaces. */
  lemma RoundTrip(m: MediaType)
    requires Canonical(m)
    ensures Parse(Render(m)) == Ok(m)
  {
    hide TakeParameters, Render, ParseEssence, Lower, Find, Sort, Canonical, TrimStart, TrimEnd;
    NotTrimmed(m);
    SemicolonEnds(m);
    EssenceParses(m);
    if m.parameters != [] {
      ParametersBack(m);
    }
  }

  lemma RendersNothing()
    ensures RenderParameters([]) == []
  {
  }

  /** Whatever parses, its text parses to the same media type; and the canonical media types are exactly those that parse from some text. */
  lemma ParseRenderParse(input: seq<Byte>)
    requires Parse(input).Ok?
    ensures Parse(Render(Parse(input).value)) == Parse(input)
  {
    ParsesToCanonical(input);
    RoundTrip(Parse(input).value);
  }

  /** The canonical media types are exactly those some text parses to. */
  lemma CanonicalExactly(m: MediaType)
    ensures Canonical(m) <==> exists input :: Parse(input) == Ok(m)
  {
    hide Canonical, Parse;
    if Canonical(m) {
      RoundTrip(m);
    }
    if exists input :: Parse(input) == Ok(m) {
      var input :| Parse(input) == Ok(m);
      ParsesToCanonical(input);
    }
  }

  /** Different media types have different texts. */
  lemma TextsTellApart(a: MediaType, b: MediaType)
    requires Canonical(a) && Canonical(b) && Render(a) == Render(b)
    ensures a == b
  {
    hide Canonical, Parse, Render;
    RoundTrip(a);
    RoundTrip(b);
  }
}
