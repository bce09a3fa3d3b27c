/**
 The things a codec is about: what a planned struct looks like, the values its
 fields hold, the tokens of a JSON document, and how one value is printed.

 Text is modelled down to tokens and no further.  A token stands for what
 `ValueScanner` takes in one call and what one `append_` writer puts down, so
 the spelling of a string or of a number is below the model.
 */
module JsonModel {
  import opened Common

  // --- what the planner decided ---------------------------------------------

  /** What one field type turns into on the wire.  `bits` is 0 for the machine word. */
  datatype Encoding =
    | EBool
    | EInt(bits: nat)
    | EUInt(bits: nat)
    | EFloat(bits: nat)
    | EString
    | ERaw
    | EStruct(name: string)
    | EOptional(arg: Encoding)
    | EList(arg: Encoding)
    | EDict(arg: Encoding)

  /** One field of a struct: on the wire under `json`, or tagged `-` and left off it. */
  datatype Member =
    | Field(name: string, json: string, encoding: Encoding, omitempty: bool)
    | Skipped(name: string)

  datatype Codec = Codec(name: string, members: seq<Member>)

  /** The codecs of one generated file, by the names of their structs. */
  type Codecs = map<string, Codec>

  /** Reading one of these takes statements rather than an expression. */
  predicate Composite(e: Encoding) { e.EList? || e.EDict? || e.EOptional? }

  /** The kinds with an empty value nobody has to invent. */
  predicate Absent(e: Encoding) { e.EOptional? || e.EList? || e.EDict? || e.ERaw? }

  /** The structs an encoding names, at any depth of containers. */
  function StructsIn(e: Encoding): set<string> {
    match e
    case EStruct(n) => {n}
    case EOptional(a) => StructsIn(a)
    case EList(a) => StructsIn(a)
    case EDict(a) => StructsIn(a)
    case _ => {}
  }

  /** Whether a decoder can be written: no field is missing from the document by design. */
  predicate Decodable(c: Codec) {
    forall i :: 0 <= i < |c.members| ==> c.members[i].Field?
  }

  /** What the planner promises about one codec. */
  ghost predicate SoundCodec(c: Codec) {
    && (forall i, j :: 0 <= i < j < |c.members| ==> c.members[i].name != c.members[j].name)
    && (forall i, j :: 0 <= i < j < |c.members| && c.members[i].Field? && c.members[j].Field? ==>
          c.members[i].json != c.members[j].json)
    && (forall i :: 0 <= i < |c.members| && c.members[i].Field? && c.members[i].omitempty ==>
          Absent(c.members[i].encoding))
  }

  /** A plan that was accepted: every codec sound, every nested struct planned too. */
  ghost predicate Accepted(p: Codecs) {
    && (forall n :: n in p ==> p[n].name == n && SoundCodec(p[n]))
    && (forall n, i :: n in p && 0 <= i < |p[n].members| && p[n].members[i].Field? ==>
          StructsIn(p[n].members[i].encoding) <= p.Keys)
  }

  /** Every struct an encoding names has a decoder in the generated file. */
  ghost predicate Readable(p: Codecs, e: Encoding) {
    forall n :: n in StructsIn(e) ==> n in p && Decodable(p[n])
  }

  /** Every decoder in the generated file calls only decoders that are in it. */
  ghost predicate Linked(p: Codecs) {
    forall n, i :: n in p && Decodable(p[n]) && 0 <= i < |p[n].members| ==>
      Readable(p, p[n].members[i].encoding)
  }

  // --- values ----------------------------------------------------------------

  /** A field's value.  A struct is a value per Mojo field name, a raw message its tokens. */
  datatype Value =
    | VBool(b: bool)
    | VInt(i: int)
    | VFloat(r: real)
    | VString(s: string)
    | VRaw(toks: seq<Token>)
    | VStruct(fields: map<string, Value>)
    | VNone
    | VSome(inner: Value)
    | VList(items: seq<Value>)
    | VDict(entries: map<string, Value>)

  /** `whole` says a number is written with no point and no exponent. */
  datatype Token =
    | LBrace | RBrace | LBracket | RBracket | Comma | Colon
    | NullWord
    | BoolWord(flag: bool)
    | NumWord(value: real, whole: bool)
    | Text(text: string)

  const MAX_NESTING_DEPTH: nat := 10000

  function Width(bits: nat): (w: nat)
    ensures w >= 1
  {
    if bits == 0 then 64 else bits
  }

  function Pow2(n: nat): (r: nat)
    ensures r >= 1
  {
    if n == 0 then 1 else 2 * Pow2(n - 1)
  }

  predicate FitsSigned(i: int, bits: nat) {
    -(Pow2(Width(bits) - 1) as int) <= i < Pow2(Width(bits) - 1)
  }

  predicate FitsUnsigned(i: int, bits: nat) {
    0 <= i < Pow2(Width(bits))
  }

  function Names(c: Codec): set<string> {
    set i | 0 <= i < |c.members| :: c.members[i].name
  }

  /** `v` is a value of the Mojo type `e` spells. */
  ghost predicate HasType(p: Codecs, e: Encoding, v: Value)
    decreases v
  {
    match e
    case EBool => v.VBool?
    case EInt(bits) => v.VInt? && FitsSigned(v.i, bits)
    case EUInt(bits) => v.VInt? && FitsUnsigned(v.i, bits)
    case EFloat(_) => v.VFloat?
    case EString => v.VString?
    case ERaw => v.VRaw? && (v.toks == [] || OneValue(v.toks))
    case EStruct(n) =>
      && v.VStruct? && n in p && v.fields.Keys == Names(p[n])
      && forall i :: 0 <= i < |p[n].members| && p[n].members[i].Field? ==>
           var m := p[n].members[i];
           m.name in v.fields && HasType(p, m.encoding, v.fields[m.name])
    case EOptional(a) => v.VNone? || (v.VSome? && HasType(p, a, v.inner))
    case EList(a) => v.VList? && forall i :: 0 <= i < |v.items| ==> HasType(p, a, v.items[i])
    case EDict(a) => v.VDict? && forall k :: k in v.entries ==> HasType(p, a, v.entries[k])
  }

  // --- stepping over one value -------------------------------------------------

  datatype Error =
    | EndOfInput
    | Expected(t: Token)
    | ExpectedKey
    | ExpectedValue
    | WrongType(what: Encoding)
    | TooDeep
    | UnknownKey(key: string)
    | MissingKey(struct_: string, key: string)
    | NoDecoder(struct_: string)
    | Trailing
    | IllFormed
    | OutOfFuel

  datatype Outcome<+T> = Ok(value: T) | Failed(error: Error)

  predicate StartsWith(toks: seq<Token>, t: Token) {
    toks != [] && toks[0] == t
  }

  /** `read_key` and the colon after it. */
  function KeyAndColon(toks: seq<Token>): (r: Outcome<(string, seq<Token>)>)
    ensures r.Ok? ==> |toks| >= 2 && toks == [Text(r.value.0), Colon] + r.value.1
  {
    if toks == [] || !toks[0].Text? then Failed(ExpectedKey)
    else if !StartsWith(toks[1..], Colon) then Failed(Expected(Colon))
    else Ok((toks[0].text, toks[2..]))
  }

  /** `skip_value` when a value goes next: `closing` are the brackets still open. */
  function Skip(toks: seq<Token>, closing: seq<Token>, depth: nat, cap: nat): (r: Outcome<seq<Token>>)
    ensures r.Ok? ==> |r.value| < |toks|
    decreases |toks|, 1
  {
    if toks == [] then Failed(EndOfInput)
    else if toks[0].LBrace? || toks[0].LBracket? then
      if depth + 1 > cap then Failed(TooDeep)
      else
        var closer := if toks[0].LBrace? then RBrace else RBracket;
        if StartsWith(toks[1..], closer) then SkipAfter(toks[2..], closing, depth, cap)
        else if toks[0].LBracket? then Skip(toks[1..], closing + [closer], depth + 1, cap)
        else
          match KeyAndColon(toks[1..])
          case Failed(e) => Failed(e)
          case Ok(kt) => Skip(kt.1, closing + [closer], depth + 1, cap)
    else if toks[0].Text? || toks[0].BoolWord? || toks[0].NullWord? || toks[0].NumWord? then
      SkipAfter(toks[1..], closing, depth, cap)
    else Failed(ExpectedValue)
  }

  /** `skip_value` when one value has just ended. */
  function SkipAfter(toks: seq<Token>, closing: seq<Token>, depth: nat, cap: nat): (r: Outcome<seq<Token>>)
    ensures r.Ok? ==> |r.value| <= |toks|
    decreases |toks|, 0
  {
    if closing == [] then Ok(toks)
    else
      var closer := closing[|closing| - 1];
      if StartsWith(toks, Comma) then
        if closer == RBrace then
          match KeyAndColon(toks[1..])
          case Failed(e) => Failed(e)
          case Ok(kt) => Skip(kt.1, closing, depth, cap)
        else Skip(toks[1..], closing, depth, cap)
      else if StartsWith(toks, closer) then
        SkipAfter(toks[1..], closing[..|closing| - 1], if depth == 0 then 0 else depth - 1, cap)
      else Failed(Expected(closer))
  }

  function DepthAfter(t: Token, depth: nat): nat {
    if t.LBrace? || t.LBracket? then depth + 1
    else if (t.RBrace? || t.RBracket?) && depth > 0 then depth - 1
    else depth
  }

  /** How deep the brackets of a token sequence go, starting `depth` levels down. */
  function Peak(toks: seq<Token>, depth: nat): (r: nat)
    ensures r >= depth
  {
    if toks == [] then depth else Max(depth, Peak(toks[1..], DepthAfter(toks[0], depth)))
  }

  /** The tokens are exactly one JSON value, however deep it goes. */
  predicate OneValue(toks: seq<Token>) {
    Skip(toks, [], 0, |toks|) == Ok([])
  }
}
