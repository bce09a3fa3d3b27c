/** Which values come back from a document as themselves, exactly. */
module JsonIdentity {
  import opened Common
  import opened JsonModel
  import opened JsonText
  import opened JsonRoundTrip

  /** `unmarshal_json_<struct>`: one object and then the end of the input. */
  function Unmarshal(p: Codecs, strict: bool, n: string, toks: seq<Token>): Outcome<Value> {
    match ReadStruct(p, strict, n, toks, 0)
    case Failed(err) => Failed(err)
    case Ok(vt) => if vt.1 == [] then Ok(vt.0) else Failed(Trailing)
  }

  /**
   Nothing in the value collapses on the way out: no filled Optional holds
   something spelled `null`, and no raw message that is written is empty.
   */
  ghost predicate Canonical(p: Codecs, e: Encoding, v: Value)
    decreases v, 1
  {
    match e
    case ERaw => v != VRaw([])
    case EOptional(a) => v.VSome? ==> !PrintsNull(a, v.inner) && Canonical(p, a, v.inner)
    case EList(a) => v.VList? ==> CanonicalItems(p, a, v.items)
    case EDict(a) => v.VDict? ==> forall k :: k in v.entries ==> Canonical(p, a, v.entries[k])
    case EStruct(n) => n in p && v.VStruct? ==>
      forall k :: k in v.fields ==> CanonicalField(p, p[n].members, v, k)
    case _ => true
  }

  ghost predicate CanonicalField(p: Codecs, ms: seq<Member>, v: Value, name: string)
    requires v.VStruct? && name in v.fields
    decreases v, 0
  {
    match MemberNamed(ms, name)
    case Some(m) => Written(m, v.fields[name]) ==> Canonical(p, m.encoding, v.fields[name])
    case None => true
  }

  ghost predicate CanonicalItems(p: Codecs, a: Encoding, items: seq<Value>)
    decreases items, 0
  {
    items == [] || (Canonical(p, a, items[0]) && CanonicalItems(p, a, items[1..]))
  }

  lemma {:induction false} NormFixed(p: Codecs, e: Encoding, v: Value)
    ensures Norm(p, e, v) == v <==> Canonical(p, e, v)
    decreases v, 1
  {
    match e
    case EOptional(a) => if v.VSome? { NormFixed(p, a, v.inner); }
    case EList(a) => if v.VList? { NormItemsFixed(p, a, v.items); }
    case EDict(a) =>
      if v.VDict? {
        forall k | k in v.entries
          ensures Norm(p, a, v.entries[k]) == v.entries[k] <==> Canonical(p, a, v.entries[k])
        {
          NormFixed(p, a, v.entries[k]);
        }
        var normed := Norm(p, e, v).entries;
        assert normed == v.entries <==> forall k :: k in v.entries ==> normed[k] == v.entries[k];
      }
    case EStruct(n) =>
      if n in p && v.VStruct? {
        forall k | k in v.fields
          ensures NormField(p, p[n].members, v, k) == v.fields[k] <==> CanonicalField(p, p[n].members, v, k)
        {
          match MemberNamed(p[n].members, k)
          case Some(m) => if m.Field? { NormFixed(p, m.encoding, v.fields[k]); }
          case None =>
        }
        var normed := Norm(p, e, v).fields;
        assert normed == v.fields <==> forall k :: k in v.fields ==> normed[k] == v.fields[k];
      }
    case _ =>
  }

  lemma {:induction false} NormItemsFixed(p: Codecs, a: Encoding, items: seq<Value>)
    ensures NormItems(p, a, items) == items <==> CanonicalItems(p, a, items)
    decreases items, 0
  {
    if items != [] {
      NormFixed(p, a, items[0]);
      NormItemsFixed(p, a, items[1..]);
      assert items == [items[0]] + items[1..];
      var r := NormItems(p, a, items);
      assert r[0] == Norm(p, a, items[0]) && r[1..] == NormItems(p, a, items[1..]);
    }
  }

  /** The document a value is printed as reads back to the value's normal form or is too deep. */
  lemma {:induction false} UnmarshalPrint(p: Codecs, strict: bool, n: string, v: Value)
    requires Accepted(p) && Linked(p) && n in p && Decodable(p[n]) && HasType(p, EStruct(n), v)
    ensures Unmarshal(p, strict, n, Print(p, EStruct(n), v)) ==
      if Deepest(p, EStruct(n), v, 0) <= MAX_NESTING_DEPTH then Ok(Norm(p, EStruct(n), v)) else Failed(TooDeep)
  {
    StructBack(p, strict, n, v, [], 0);
    assert Print(p, EStruct(n), v) + [] == Print(p, EStruct(n), v);
  }

  /** Decoding undoes encoding exactly on the canonical values no deeper than the cap. */
  lemma {:induction false} RoundTripIff(p: Codecs, strict: bool, n: string, v: Value)
    requires Accepted(p) && Linked(p) && n in p && Decodable(p[n]) && HasType(p, EStruct(n), v)
    ensures Unmarshal(p, strict, n, Print(p, EStruct(n), v)) == Ok(v)
      <==> Canonical(p, EStruct(n), v) && Deepest(p, EStruct(n), v, 0) <= MAX_NESTING_DEPTH
  {
    UnmarshalPrint(p, strict, n, v);
    NormFixed(p, EStruct(n), v);
  }

  // --- the condition on types ---------------------------------------------------------

  /** No Optional directly around an Optional or a raw message. */
  predicate Plain(e: Encoding) {
    match e
    case EOptional(a) => !a.EOptional? && !a.ERaw? && Plain(a)
    case EList(a) => Plain(a)
    case EDict(a) => Plain(a)
    case _ => true
  }

  ghost predicate PlainPlan(p: Codecs) {
    forall n, i :: n in p && 0 <= i < |p[n].members| && p[n].members[i].Field? ==> Plain(p[n].members[i].encoding)
  }

  /** No raw message that would be written is empty. */
  ghost predicate RawsFilled(p: Codecs, e: Encoding, v: Value)
    decreases v
  {
    match e
    case ERaw => v != VRaw([])
    case EOptional(a) => v.VSome? ==> RawsFilled(p, a, v.inner)
    case EList(a) => v.VList? ==> forall i :: 0 <= i < |v.items| ==> RawsFilled(p, a, v.items[i])
    case EDict(a) => v.VDict? ==> forall k :: k in v.entries ==> RawsFilled(p, a, v.entries[k])
    case EStruct(n) => n in p && v.VStruct? ==>
      forall i :: 0 <= i < |p[n].members| && p[n].members[i].name in v.fields && WrittenIn(p[n].members[i], v) ==>
        RawsFilled(p, p[n].members[i].encoding, v.fields[p[n].members[i].name])
    case _ => true
  }

  lemma {:induction false} MemberNamedIn(ms: seq<Member>, name: string)
    requires MemberNamed(ms, name).Some?
    ensures exists i :: 0 <= i < |ms| && ms[i] == MemberNamed(ms, name).value && ms[i].name == name
  {
    if ms[0].name != name {
      MemberNamedIn(ms[1..], name);
      var i :| 0 <= i < |ms| - 1 && ms[1..][i] == MemberNamed(ms, name).value && ms[1..][i].name == name;
      assert ms[i + 1] == MemberNamed(ms, name).value;
    }
  }

  /** In a plan with plain types, only an empty raw message keeps a value from coming back. */
  lemma {:induction false} PlainIsCanonical(p: Codecs, e: Encoding, v: Value)
    requires PlainPlan(p) && Plain(e) && RawsFilled(p, e, v)
    ensures Canonical(p, e, v)
    decreases v, 1
  {
    match e
    case EOptional(a) => if v.VSome? { PlainIsCanonical(p, a, v.inner); }
    case EList(a) => if v.VList? { PlainItems(p, a, v.items); }
    case EDict(a) =>
      if v.VDict? {
        forall k | k in v.entries ensures Canonical(p, a, v.entries[k]) { PlainIsCanonical(p, a, v.entries[k]); }
      }
    case EStruct(n) =>
      if n in p && v.VStruct? {
        forall k | k in v.fields ensures CanonicalField(p, p[n].members, v, k) {
          match MemberNamed(p[n].members, k)
          case None =>
          case Some(m) =>
            MemberNamedIn(p[n].members, k);
            if Written(m, v.fields[k]) { PlainIsCanonical(p, m.encoding, v.fields[k]); }
        }
      }
    case _ =>
  }

  lemma {:induction false} PlainItems(p: Codecs, a: Encoding, items: seq<Value>)
    requires PlainPlan(p) && Plain(a) && forall i :: 0 <= i < |items| ==> RawsFilled(p, a, items[i])
    ensures CanonicalItems(p, a, items)
    decreases items, 0
  {
    if items != [] {
      PlainIsCanonical(p, a, items[0]);
      PlainItems(p, a, items[1..]);
    }
  }

  /** With plain types, a value with no empty raw message comes back whenever the cap allows. */
  lemma {:induction false} PlainRoundTrip(p: Codecs, strict: bool, n: string, v: Value)
    requires Accepted(p) && Linked(p) && PlainPlan(p) && n in p && Decodable(p[n])
    requires HasType(p, EStruct(n), v) && RawsFilled(p, EStruct(n), v)
    requires Deepest(p, EStruct(n), v, 0) <= MAX_NESTING_DEPTH
    ensures Unmarshal(p, strict, n, Print(p, EStruct(n), v)) == Ok(v)
  {
    PlainIsCanonical(p, EStruct(n), v);
    RoundTripIff(p, strict, n, v);
  }

  /** The collapse is real: a field holding `Some(None)` comes back as nothing. */
  lemma {:induction false} CollapseExample(strict: bool)
    ensures var p := map["S" := Codec("S", [Field("f", "f", EOptional(EOptional(EBool)), false)])];
      var v := VStruct(map["f" := VSome(VNone)]);
      && Accepted(p) && Linked(p) && HasType(p, EStruct("S"), v)
      && Unmarshal(p, strict, "S", Print(p, EStruct("S"), v)) == Ok(VStruct(map["f" := VNone]))
  {
    var c := Codec("S", [Field("f", "f", EOptional(EOptional(EBool)), false)]);
    var p := map["S" := c];
    var v := VStruct(map["f" := VSome(VNone)]);
    assert SoundCodec(c) && Decodable(c);
    assert Names(c) == {"f"} by { assert c.members[0].name == "f"; }
    assert HasType(p, EStruct("S"), v);
    UnmarshalPrint(p, strict, "S", v);
    assert Print(p, EOptional(EOptional(EBool)), v.fields["f"]) == [NullWord];
    assert WrittenIn(c.members[0], v);
    assert NormField(p, c.members, v, "f") == VNone;
    assert Norm(p, EStruct("S"), v).fields == map["f" := VNone];
    assert Deepest(p, EOptional(EOptional(EBool)), v.fields["f"], 1) == 1;
    assert c.members[1..] == [];
    assert DeepestField(p, c.members, v, 1) == 1;
  }
}
