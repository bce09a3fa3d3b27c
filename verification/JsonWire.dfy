/**
 What stands in a printed document, told key by key from the value alone, and
 which numbers an integer field takes.
 */
module JsonWire {
  import opened Common
  import opened JsonModel
  import opened JsonText
  import opened JsonLast
  import E = EmitEncoder
  import ER = EncoderRuns

  // --- what is left out ------------------------------------------------------------

  /** The values that hold nothing, for the kinds a field can do without. */
  predicate Nothing(x: Value) {
    x == VNone || x == VList([]) || x == VDict(map[]) || x == VRaw([])
  }

  /** The test asks for the one value a missing key is read as; elsewhere for "", false and 0. */
  lemma {:induction false} EmptyExactly(p: Codecs, e: Encoding, v: Value)
    requires HasType(p, e, v)
    ensures Absent(e) ==> (EmptyValue(v) <==> v == EmptyOf(e)) && (EmptyValue(v) <==> Nothing(v))
    ensures !Absent(e) ==> (EmptyValue(v) <==> v in {VString(""), VBool(false), VInt(0), VFloat(0.0)})
    ensures !e.EStruct? ==> E.EvalTest(E.EmptyTest(e), v) == Some(!EmptyValue(v))
  {
    if !e.EStruct? { ER.TestAsksEmpty(p, e, v); }
  }

  /** The field belongs in the document: it is not tagged `-`, and it is not an `omitempty` field with nothing in it. */
  predicate OnWire(m: Member, v: Value) {
    m.Field? && v.VStruct? && m.name in v.fields && (m.omitempty ==> !Nothing(v.fields[m.name]))
  }

  /** The fields from `k` on that belong in the document, as declared. */
  ghost function FieldsOnWire(ms: seq<Member>, v: Value, k: nat): (at: seq<nat>)
    requires k <= |ms|
    ensures forall i, j :: 0 <= i < j < |at| ==> at[i] < at[j]
    ensures forall j :: 0 <= j < |at| ==> k <= at[j]
    ensures AllOnWire(ms, v, at)
    ensures forall i :: k <= i < |ms| && OnWire(ms[i], v) ==> i in at
    decreases |ms| - k
  {
    if k == |ms| then []
    else
      var rest := FieldsOnWire(ms, v, k + 1);
      if OnWire(ms[k], v) then [k] + rest else rest
  }

  ghost predicate AllOnWire(ms: seq<Member>, v: Value, at: seq<nat>) {
    forall j :: 0 <= j < |at| ==> at[j] < |ms| && OnWire(ms[at[j]], v)
  }

  /** A field under its key. */
  ghost function FieldEntry(p: Codecs, m: Member, v: Value): Entry
    requires OnWire(m, v)
  {
    Entry(m.json, Print(p, m.encoding, v.fields[m.name]))
  }

  /** Each chosen field under its key. */
  ghost function FieldEntries(p: Codecs, ms: seq<Member>, v: Value, at: seq<nat>): (r: seq<Entry>)
    requires AllOnWire(ms, v, at)
    ensures |r| == |at|
    ensures forall j :: 0 <= j < |at| ==> r[j] == FieldEntry(p, ms[at[j]], v)
  {
    if at == [] then [] else [FieldEntry(p, ms[at[0]], v)] + FieldEntries(p, ms, v, at[1..])
  }

  ghost predicate TypedFields(p: Codecs, ms: seq<Member>, v: Value) {
    v.VStruct? && forall i :: 0 <= i < |ms| && ms[i].Field? ==>
      && ms[i].name in v.fields && HasType(p, ms[i].encoding, v.fields[ms[i].name])
      && (ms[i].omitempty ==> Absent(ms[i].encoding))
  }

  lemma {:induction false} FieldsListed(p: Codecs, ms: seq<Member>, v: Value, k: nat, first: bool)
    requires k <= |ms| && TypedFields(p, ms, v)
    ensures PrintFields(p, ms[k..], v, first) == Body(FieldEntries(p, ms, v, FieldsOnWire(ms, v, k)), first)
    decreases |ms| - k
  {
    hide Print, PrintFields, HasType, Body, FieldEntries, EmptyValue, OnWire;
    if k == |ms| {
      NoneListed(p, ms, v, first);
      assert ms[k..] == [];
    } else {
      FieldsListed(p, ms, v, k + 1, first);
      FieldsListed(p, ms, v, k + 1, false);
      WrittenExactly(p, ms, v, k);
      FieldPrinted(p, ms, v, k, first);
      if OnWire(ms[k], v) { FieldFirst(p, ms, v, FieldsOnWire(ms, v, k), k, first); }
    }
  }

  lemma {:induction false} WrittenExactly(p: Codecs, ms: seq<Member>, v: Value, k: nat)
    requires TypedFields(p, ms, v) && k < |ms|
    ensures WrittenIn(ms[k], v) <==> OnWire(ms[k], v)
  {
    var m := ms[k];
    if m.Field? && m.omitempty { EmptyExactly(p, m.encoding, v.fields[m.name]); }
  }

  lemma {:induction false} FieldPrinted(p: Codecs, ms: seq<Member>, v: Value, k: nat, first: bool)
    requires k < |ms|
    ensures PrintFields(p, ms[k..], v, first) ==
      if WrittenIn(ms[k], v) then
        CommaUnless(first) + [Text(ms[k].json), Colon] + Print(p, ms[k].encoding, v.fields[ms[k].name])
        + PrintFields(p, ms[k + 1..], v, false)
      else PrintFields(p, ms[k + 1..], v, first)
  {
    hide Print, EmptyValue;
    assert ms[k..][0] == ms[k] && ms[k..][1..] == ms[k + 1..];
  }

  lemma {:induction false} NoneListed(p: Codecs, ms: seq<Member>, v: Value, first: bool)
    ensures PrintFields(p, [], v, first) == [] == Body(FieldEntries(p, ms, v, []), first)
  {
  }

  lemma {:induction false} FieldFirst(p: Codecs, ms: seq<Member>, v: Value, at: seq<nat>, k: nat, first: bool)
    requires AllOnWire(ms, v, at) && at != [] && at[0] == k
    ensures Body(FieldEntries(p, ms, v, at), first)
            == CommaUnless(first) + [Text(ms[k].json), Colon] + Print(p, ms[k].encoding, v.fields[ms[k].name])
               + Body(FieldEntries(p, ms, v, at[1..]), false)
  {
    hide Print;
    assert FieldEntries(p, ms, v, at)[1..] == FieldEntries(p, ms, v, at[1..]);
  }

  /** A printed struct is the object of the fields that belong in it and of no others, in declared order. */
  lemma {:induction false} ObjectExactly(p: Codecs, n: string, v: Value)
    requires Accepted(p) && n in p && HasType(p, EStruct(n), v)
    ensures Print(p, EStruct(n), v)
            == Object(FieldEntries(p, p[n].members, v, FieldsOnWire(p[n].members, v, 0)))
  {
    hide Print, PrintFields;
    var ms := p[n].members;
    FieldsListed(p, ms, v, 0, true);
    assert ms[0..] == ms;
    StructPrinted(p, n, v);
  }

  lemma {:induction false} StructPrinted(p: Codecs, n: string, v: Value)
    requires n in p && v.VStruct?
    ensures Print(p, EStruct(n), v) == [LBrace] + PrintFields(p, p[n].members, v, true) + [RBrace]
  {
  }

  /** What the emitted encoder writes has a key exactly when some field of that key belongs in the document. */
  lemma {:induction false} MarshalKeys(p: Codecs, order: E.Order, fuel: nat, n: string, v: Value)
    requires Accepted(p) && E.Enumerates(order) && n in p && HasType(p, EStruct(n), v)
    requires |Print(p, EStruct(n), v)| <= fuel
    ensures var at := FieldsOnWire(p[n].members, v, 0);
      ER.Marshal(p, order, fuel, n, v) == Ok(Object(FieldEntries(p, p[n].members, v, at)))
    ensures var wire := FieldEntries(p, p[n].members, v, FieldsOnWire(p[n].members, v, 0));
      forall i :: 0 <= i < |p[n].members| && p[n].members[i].Field? ==>
        (LastText(wire, p[n].members[i].json).Some? <==> OnWire(p[n].members[i], v))
  {
    hide Print, HasType, Body;
    var ms := p[n].members;
    ER.MarshalPrints(p, order, fuel, n, v);
    ObjectExactly(p, n, v);
    var at := FieldsOnWire(ms, v, 0);
    var wire := FieldEntries(p, ms, v, at);
    forall i | 0 <= i < |ms| && ms[i].Field?
      ensures LastText(wire, ms[i].json).Some? <==> OnWire(ms[i], v)
    {
      LastTextSome(wire, ms[i].json);
      if OnWire(ms[i], v) {
        assert i in at;
        var j :| 0 <= j < |at| && at[j] == i;
        assert wire[j].key == ms[i].json;
      }
      if j :| 0 <= j < |wire| && wire[j].key == ms[i].json {
        assert at[j] in at && SoundCodec(p[n]);
      }
    }
  }

  lemma {:induction false} LastTextSome(entries: seq<Entry>, key: string)
    ensures LastText(entries, key).Some? <==> exists i :: 0 <= i < |entries| && entries[i].key == key
  {
    if entries != [] && entries[|entries| - 1].key != key {
      var init := entries[..|entries| - 1];
      LastTextSome(init, key);
      if i :| 0 <= i < |init| && init[i].key == key { assert entries[i].key == key; }
      if i :| 0 <= i < |entries| && entries[i].key == key { assert init[i].key == key; }
    }
  }

  // --- dictionaries ------------------------------------------------------------------

  ghost function KeyEntries(p: Codecs, a: Encoding, v: Value, ks: seq<string>): (r: seq<Entry>)
    requires v.VDict? && forall k :: k in ks ==> k in v.entries
    ensures |r| == |ks|
    ensures forall i :: 0 <= i < |ks| ==> r[i] == Entry(ks[i], Print(p, a, v.entries[ks[i]]))
  {
    if ks == [] then []
    else [Entry(ks[0], Print(p, a, v.entries[ks[0]]))] + KeyEntries(p, a, v, ks[1..])
  }

  lemma {:induction false} KeysListed(p: Codecs, a: Encoding, v: Value, ks: seq<string>, first: bool)
    requires v.VDict? && forall k :: k in ks ==> k in v.entries
    ensures PrintEntries(p, a, v, ks, first) == Body(KeyEntries(p, a, v, ks), first)
  {
    if ks != [] {
      hide Print;
      KeysListed(p, a, v, ks[1..], false);
      var all := KeyEntries(p, a, v, ks);
      assert all[1..] == KeyEntries(p, a, v, ks[1..]);
    }
  }

  /** A printed dictionary is the object of its keys, each of them once and in ascending order. */
  lemma {:induction false} DictExactly(p: Codecs, a: Encoding, v: Value) returns (ks: seq<string>)
    requires v.VDict?
    ensures Ascending(ks) && forall k :: k in ks <==> k in v.entries
    ensures Print(p, EDict(a), v) == Object(KeyEntries(p, a, v, ks))
  {
    hide Sort, SetToSeq, KeyEntries, PrintEntries, Body, Before, HasType;
    ks := SortedKeys(v.entries.Keys);
    SortAscending(SetToSeq(v.entries.Keys));
    KeysListed(p, a, v, ks, true);
  }

  // --- numbers -----------------------------------------------------------------------

  /** The least and the greatest number of each signed width, 0 being the machine word. */
  predicate InSigned(i: int, bits: nat) {
    || (bits == 8 && -128 <= i <= 127)
    || (bits == 16 && -32768 <= i <= 32767)
    || (bits == 32 && -2147483648 <= i <= 2147483647)
    || ((bits == 64 || bits == 0) && -9223372036854775808 <= i <= 9223372036854775807)
  }

  predicate InUnsigned(i: int, bits: nat) {
    || (bits == 8 && 0 <= i <= 255)
    || (bits == 16 && 0 <= i <= 65535)
    || (bits == 32 && 0 <= i <= 4294967295)
    || ((bits == 64 || bits == 0) && 0 <= i <= 18446744073709551615)
  }

  lemma {:induction false} PowAdds(a: nat, b: nat)
    ensures Pow2(a + b) == Pow2(a) * Pow2(b)
  {
    if a > 0 { PowAdds(a - 1, b); }
  }

  lemma {:induction false} Powers()
    ensures Pow2(7) == 128 && Pow2(8) == 256 && Pow2(15) == 32768 && Pow2(16) == 65536
    ensures Pow2(31) == 2147483648 && Pow2(32) == 4294967296
    ensures Pow2(63) == 9223372036854775808 && Pow2(64) == 18446744073709551616
  {
    assert Pow2(7) == 128;
    PowAdds(8, 8);
    PowAdds(8, 7);
    PowAdds(16, 16);
    PowAdds(16, 15);
    PowAdds(32, 32);
    PowAdds(32, 31);
  }

  /** An integer field takes a number written without a point or an exponent and within its width, and nothing else. */
  lemma {:induction false} IntegersExactly(bits: nat, toks: seq<Token>, i: int)
    requires toks != [] && bits in {0, 8, 16, 32, 64} && (forall r,
                                                          w :: NumWord(r, w) in toks && w ==> r == r.Floor as real)
    ensures ReadScalar(EInt(bits), toks) == Ok((VInt(i), toks[1..]))
      <==> StartsWith(toks, NumWord(i as real, true)) && InSigned(i, bits)
    ensures ReadScalar(EUInt(bits), toks) == Ok((VInt(i), toks[1..]))
      <==> StartsWith(toks, NumWord(i as real, true)) && InUnsigned(i, bits)
  {
    Powers();
    hide Pow2;
  }

  /** The float is this integer, of at most 21 digits. */
  predicate ShortInteger(r: real, i: int) {
    r == i as real && -999999999999999999999 <= i <= 999999999999999999999
  }

  /** A float is written with its value, and like an integer exactly when it is one of at most 21 digits. */
  lemma {:induction false} FloatSpelling(r: real)
    ensures FloatWord(r).NumWord? && FloatWord(r).value == r
    ensures FloatWord(r).whole <==> exists i: int :: ShortInteger(r, i)
  {
    if FloatWord(r).whole { assert ShortInteger(r, r.Floor); }
    forall i: int | ShortInteger(r, i) ensures i == r.Floor {}
  }

  /** A float's text suits an integer field exactly when the float is a whole number within the field's width. */
  lemma {:induction false} FloatIntoInteger(bits: nat, r: real, rest: seq<Token>, i: int)
    requires bits in {0, 8, 16, 32, 64}
    ensures ReadScalar(EInt(bits), [FloatWord(r)] + rest) == Ok((VInt(i), rest))
      <==> r == i as real && InSigned(i, bits)
    ensures ReadScalar(EUInt(bits), [FloatWord(r)] + rest) == Ok((VInt(i), rest))
      <==> r == i as real && InUnsigned(i, bits)
  {
    Powers();
    hide Pow2;
    assert ([FloatWord(r)] + rest)[1..] == rest;
  }

  /** A value that is typed lies within its width. */
  lemma {:induction false} TypedIntegers(p: Codecs, bits: nat, v: Value)
    requires bits in {0, 8, 16, 32, 64}
    ensures HasType(p, EInt(bits), v) <==> v.VInt? && InSigned(v.i, bits)
    ensures HasType(p, EUInt(bits), v) <==> v.VInt? && InUnsigned(v.i, bits)
  {
    Powers();
    hide Pow2;
  }

  /** The kinds read and written as one token that says all there is to say. */
  predicate Exact(e: Encoding) {
    match e
    case EBool => true
    case EString => true
    case EInt(bits) => bits in {0, 8, 16, 32, 64}
    case EUInt(bits) => bits in {0, 8, 16, 32, 64}
    case _ => false
  }

  /** Reading one of these takes exactly what printing a value of the type writes. */
  lemma {:induction false} ScalarsExactly(p: Codecs, e: Encoding, toks: seq<Token>, v: Value, rest: seq<Token>)
    requires Exact(e) && (forall r, w :: NumWord(r, w) in toks && w ==> r == r.Floor as real)
    ensures ReadScalar(e, toks) == Ok((v, rest)) <==> HasType(p, e, v) && toks == Print(p, e, v) + rest
  {
    hide FitsSigned, FitsUnsigned, Pow2;
    if toks != [] {
      if (e.EInt? || e.EUInt?) && v.VInt? {
        IntegersExactly(e.bits, toks, v.i);
        TypedIntegers(p, e.bits, v);
      }
      assert toks == [toks[0]] + toks[1..];
      if toks[0].NumWord? { assert NumWord(toks[0].value, toks[0].whole) in toks; }
    }
  }

  /** A float field takes any number and keeps its value. */
  lemma {:induction false} FloatsExactly(bits: nat, toks: seq<Token>, v: Value, rest: seq<Token>)
    ensures ReadScalar(EFloat(bits), toks) == Ok((v, rest))
      <==> v.VFloat? && exists whole :: toks == [NumWord(v.r, whole)] + rest
  {
    if toks != [] && toks[0].NumWord? {
      assert toks == [NumWord(toks[0].value, toks[0].whole)] + toks[1..];
    }
  }
}
