/**
 The two reference functions the emitted code is compared with: `Print`, the
 tokens of a value, and `Read`, a recursive descent over them.  Neither knows
 anything about emitted statements, temporaries or the `wrote` flag.
 */
module JsonText {
  import opened Common
  import opened JsonModel

  // --- printing ----------------------------------------------------------------

  /** The keys of a dictionary in the order they are written. */
  ghost function SetToSeq(s: set<string>): (r: seq<string>)
    ensures forall x :: x in r <==> x in s
    ensures Distinct(r)
  {
    if s == {} then [] else var x :| x in s; [x] + SetToSeq(s - {x})
  }

  ghost function SortedKeys(s: set<string>): (r: seq<string>)
    ensures forall x :: x in r <==> x in s
  {
    Sort(SetToSeq(s))
  }

  function IntWord(i: int): Token { NumWord(i as real, true) }

  /** A float goes out with a point or an exponent unless it is a whole number below 1e21. */
  function FloatWord(r: real): Token {
    NumWord(r, r == r.Floor as real && -1000000000000000000000.0 < r < 1000000000000000000000.0)
  }

  /** `omitempty`'s test, which is Go's idea of empty. */
  predicate EmptyValue(v: Value) {
    match v
    case VString(s) => s == ""
    case VList(items) => |items| == 0
    case VDict(entries) => |entries| == 0
    case VRaw(toks) => |toks| == 0
    case VBool(b) => !b
    case VNone => true
    case VInt(i) => i == 0
    case VFloat(r) => r == 0.0
    case VSome(_) => false
    case VStruct(_) => false
  }

  /** The field is on the wire this time. */
  predicate Written(m: Member, v: Value) {
    m.Field? && !(m.omitempty && EmptyValue(v))
  }

  function CommaUnless(first: bool): seq<Token> {
    if first then [] else [Comma]
  }

  /** The tokens of a value.  Nothing is promised about a value that is not of the type. */
  ghost function Print(p: Codecs, e: Encoding, v: Value): seq<Token>
    decreases v, 1, 0
  {
    match e
    case EBool => if v.VBool? then [BoolWord(v.b)] else []
    case EInt(_) => if v.VInt? then [IntWord(v.i)] else []
    case EUInt(_) => if v.VInt? then [IntWord(v.i)] else []
    case EFloat(_) => if v.VFloat? then [FloatWord(v.r)] else []
    case EString => if v.VString? then [Text(v.s)] else []
    case ERaw => if !v.VRaw? then [] else if v.toks == [] then [NullWord] else v.toks
    case EStruct(n) =>
      if n in p && v.VStruct? then [LBrace] + PrintFields(p, p[n].members, v, true) + [RBrace] else []
    case EOptional(a) => if v.VNone? then [NullWord] else if v.VSome? then Print(p, a, v.inner) else []
    case EList(a) => if v.VList? then [LBracket] + PrintItems(p, a, v.items, true) + [RBracket] else []
    case EDict(a) =>
      if v.VDict? then [LBrace] + PrintEntries(p, a, v, SortedKeys(v.entries.Keys), true) + [RBrace] else []
  }

  /** The member is on the wire for this struct value. */
  predicate WrittenIn(m: Member, v: Value) {
    v.VStruct? && m.name in v.fields && Written(m, v.fields[m.name])
  }

  /** A comma goes before every field written but the first: the encoder with nothing worked out early. */
  ghost function PrintFields(p: Codecs, ms: seq<Member>, v: Value, first: bool): seq<Token>
    decreases v, 0, |ms|
  {
    if ms == [] then []
    else if WrittenIn(ms[0], v) then
      CommaUnless(first) + PrintField(p, ms[0], v) + PrintFields(p, ms[1..], v, false)
    else PrintFields(p, ms[1..], v, first)
  }

  ghost function PrintField(p: Codecs, m: Member, v: Value): seq<Token>
    requires WrittenIn(m, v)
    decreases v, 0, 0
  {
    [Text(m.json), Colon] + Print(p, m.encoding, v.fields[m.name])
  }

  ghost function PrintItems(p: Codecs, a: Encoding, items: seq<Value>, first: bool): seq<Token>
    decreases items, 0, 0
  {
    if items == [] then []
    else CommaUnless(first) + Print(p, a, items[0]) + PrintItems(p, a, items[1..], false)
  }

  ghost function PrintEntries(p: Codecs, a: Encoding, v: Value, ks: seq<string>, first: bool): seq<Token>
    decreases v, 0, |ks|
  {
    if ks == [] || !v.VDict? || ks[0] !in v.entries then []
    else CommaUnless(first) + [Text(ks[0]), Colon] + Print(p, a, v.entries[ks[0]])
         + PrintEntries(p, a, v, ks[1..], false)
  }

  // --- reading -------------------------------------------------------------------

  /** The empty value a field may be left at when its key is not in the document. */
  function EmptyOf(e: Encoding): Value
    requires Absent(e)
  {
    match e
    case EOptional(_) => VNone
    case EList(_) => VList([])
    case EDict(_) => VDict(map[])
    case ERaw => VRaw([])
  }

  /** One read that is a single expression on a single token. */
  function ReadScalar(e: Encoding, toks: seq<Token>): (r: Outcome<(Value, seq<Token>)>)
    ensures r.Ok? ==> toks != [] && r.value.1 == toks[1..]
  {
    if toks == [] then Failed(EndOfInput)
    else
      var t := toks[0];
      match e
      case EBool => if t.BoolWord? then Ok((VBool(t.flag), toks[1..])) else Failed(WrongType(e))
      case EString => if t.Text? then Ok((VString(t.text), toks[1..])) else Failed(WrongType(e))
      case EFloat(_) => if t.NumWord? then Ok((VFloat(t.value), toks[1..])) else Failed(WrongType(e))
      case EInt(bits) =>
        if t.NumWord? && t.whole && FitsSigned(t.value.Floor, bits) then Ok((VInt(t.value.Floor), toks[1..]))
        else Failed(WrongType(e))
      case EUInt(bits) =>
        if t.NumWord? && t.whole && FitsUnsigned(t.value.Floor, bits) then Ok((VInt(t.value.Floor), toks[1..]))
        else Failed(WrongType(e))
      case _ => Failed(WrongType(e))
  }

  /** `read_raw`: one whole value, kept as the tokens it was written with. */
  function ReadRaw(toks: seq<Token>, depth: nat): (r: Outcome<(Value, seq<Token>)>)
    ensures r.Ok? ==> |r.value.1| < |toks|
  {
    match Skip(toks, [], depth, MAX_NESTING_DEPTH)
    case Failed(err) => Failed(err)
    case Ok(rest) => Ok((VRaw(toks[..|toks| - |rest|]), rest))
  }

  /** The field a key names. */
  function FieldFor(c: Codec, key: string): (r: Option<nat>)
    ensures r.Some? ==> r.value < |c.members| && c.members[r.value].Field? && c.members[r.value].json == key
    ensures r.Some? ==> forall j :: 0 <= j < r.value && c.members[j].Field? ==> c.members[j].json != key
    ensures r.None? ==> forall i :: 0 <= i < |c.members| && c.members[i].Field? ==> c.members[i].json != key
  {
    FieldFrom(c, key, 0)
  }

  function FieldFrom(c: Codec, key: string, i: nat): (r: Option<nat>)
    requires i <= |c.members|
    ensures r.Some? ==> i <= r.value < |c.members| && c.members[r.value].Field? && c.members[r.value].json == key
    ensures r.Some? ==> forall j :: i <= j < r.value && c.members[j].Field? ==> c.members[j].json != key
    ensures r.None? ==> forall j :: i <= j < |c.members| && c.members[j].Field? ==> c.members[j].json != key
    decreases |c.members| - i
  {
    if i == |c.members| then None
    else if c.members[i].Field? && c.members[i].json == key then Some(i)
    else FieldFrom(c, key, i + 1)
  }

  /** The struct built from what the document held, or the first field it should have held. */
  function Finish(c: Codec, slots: map<string, Value>, i: nat): Outcome<map<string, Value>>
    requires i <= |c.members|
    decreases |c.members| - i
  {
    if i == |c.members| then Ok(map[])
    else
      var m := c.members[i];
      if m.Skipped? then Failed(NoDecoder(c.name))
      else if m.name !in slots && !Absent(m.encoding) then Failed(MissingKey(c.name, m.json))
      else
        match Finish(c, slots, i + 1)
        case Failed(err) => Failed(err)
        case Ok(rest) => Ok(rest[m.name := if m.name in slots then slots[m.name] else EmptyOf(m.encoding)])
  }

  /** One value of `e` off the front of `toks`, `depth` brackets down. */
  function Read(p: Codecs, strict: bool, e: Encoding, toks: seq<Token>, depth: nat): (r: Outcome<(Value, seq<Token>)>)
    ensures r.Ok? ==> |r.value.1| < |toks|
    decreases |toks|, 1, e
  {
    match e
    case ERaw => ReadRaw(toks, depth)
    case EStruct(n) => ReadStruct(p, strict, n, toks, depth)
    case EOptional(a) =>
      if StartsWith(toks, NullWord) then Ok((VNone, toks[1..]))
      else
        (match Read(p, strict, a, toks, depth)
         case Failed(err) => Failed(err)
         case Ok(vt) => Ok((VSome(vt.0), vt.1)))
    case EList(a) =>
      if depth + 1 > MAX_NESTING_DEPTH then Failed(TooDeep)
      else if !StartsWith(toks, LBracket) then Failed(Expected(LBracket))
      else if StartsWith(toks[1..], RBracket) then Ok((VList([]), toks[2..]))
      else ReadItems(p, strict, a, toks[1..], depth + 1, [])
    case EDict(a) =>
      if depth + 1 > MAX_NESTING_DEPTH then Failed(TooDeep)
      else if !StartsWith(toks, LBrace) then Failed(Expected(LBrace))
      else if StartsWith(toks[1..], RBrace) then Ok((VDict(map[]), toks[2..]))
      else ReadEntries(p, strict, a, toks[1..], depth + 1, map[])
    case _ => ReadScalar(e, toks)
  }

  function ReadStruct(p: Codecs, strict: bool, n: string, toks: seq<Token>,
                      depth: nat): (r: Outcome<(Value, seq<Token>)>)
    ensures r.Ok? ==> |r.value.1| < |toks|
    decreases |toks|, 0
  {
    if n !in p || !Decodable(p[n]) then Failed(NoDecoder(n))
    else if depth + 1 > MAX_NESTING_DEPTH then Failed(TooDeep)
    else if !StartsWith(toks, LBrace) then Failed(Expected(LBrace))
    else
      match (if StartsWith(toks[1..], RBrace) then Ok((map[], toks[2..]))
             else ReadMembers(p, strict, p[n], toks[1..], depth + 1, map[]))
      case Failed(err) => Failed(err)
      case Ok(st) =>
        match Finish(p[n], st.0, 0)
        case Failed(err) => Failed(err)
        case Ok(fields) => Ok((VStruct(fields), st.1))
  }

  function ReadItems(p: Codecs, strict: bool, a: Encoding, toks: seq<Token>, depth: nat,
                     acc: seq<Value>): (r: Outcome<(Value, seq<Token>)>)
    ensures r.Ok? ==> |r.value.1| < |toks|
    decreases |toks|, 2
  {
    match Read(p, strict, a, toks, depth)
    case Failed(err) => Failed(err)
    case Ok(vt) =>
      if StartsWith(vt.1, Comma) then ReadItems(p, strict, a, vt.1[1..], depth, acc + [vt.0])
      else if StartsWith(vt.1, RBracket) then Ok((VList(acc + [vt.0]), vt.1[1..]))
      else Failed(Expected(RBracket))
  }

  function ReadEntries(p: Codecs, strict: bool, a: Encoding, toks: seq<Token>, depth: nat,
                       acc: map<string, Value>): (r: Outcome<(Value, seq<Token>)>)
    ensures r.Ok? ==> |r.value.1| < |toks|
    decreases |toks|, 2
  {
    match KeyAndColon(toks)
    case Failed(err) => Failed(err)
    case Ok(kt) =>
      match Read(p, strict, a, kt.1, depth)
      case Failed(err) => Failed(err)
      case Ok(vt) =>
        var now := acc[kt.0 := vt.0];
        if StartsWith(vt.1, Comma) then ReadEntries(p, strict, a, vt.1[1..], depth, now)
        else if StartsWith(vt.1, RBrace) then Ok((VDict(now), vt.1[1..]))
        else Failed(Expected(RBrace))
  }

  /** What one key does to the fields read so far. */
  function ReadMember(p: Codecs, strict: bool, c: Codec, key: string, toks: seq<Token>, depth: nat,
                      slots: map<string, Value>): (r: Outcome<(map<string, Value>, seq<Token>)>)
    ensures r.Ok? ==> |r.value.1| < |toks|
    decreases |toks|, 2
  {
    match FieldFor(c, key)
    case None =>
      if strict then Failed(UnknownKey(key))
      else
        (match Skip(toks, [], depth, MAX_NESTING_DEPTH)
         case Failed(err) => Failed(err)
         case Ok(rest) => Ok((slots, rest)))
    case Some(i) =>
      match Read(p, strict, c.members[i].encoding, toks, depth)
      case Failed(err) => Failed(err)
      case Ok(vt) => Ok((slots[c.members[i].name := vt.0], vt.1))
  }

  function ReadMembers(p: Codecs, strict: bool, c: Codec, toks: seq<Token>, depth: nat,
                       slots: map<string, Value>): (r: Outcome<(map<string, Value>, seq<Token>)>)
    ensures r.Ok? ==> |r.value.1| < |toks|
    decreases |toks|, 3
  {
    match KeyAndColon(toks)
    case Failed(err) => Failed(err)
    case Ok(kt) =>
      match ReadMember(p, strict, c, kt.0, kt.1, depth, slots)
      case Failed(err) => Failed(err)
      case Ok(st) =>
        if StartsWith(st.1, Comma) then ReadMembers(p, strict, c, st.1[1..], depth, st.0)
        else if StartsWith(st.1, RBrace) then Ok((st.0, st.1[1..]))
        else Failed(Expected(RBrace))
  }
}
