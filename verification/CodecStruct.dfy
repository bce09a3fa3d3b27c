/**
 The planner's view of one struct: `encoding` and `one` of `plan.py`.  A field
 becomes a member of a codec, or there is a problem with it.
 */
module CodecStruct {
  import opened Common
  import opened JsonModel
  import opened CodecTags

  // --- what the reader found -----------------------------------------------------

  /** A type as it was written.  `path` is where an imported or local name points. */
  datatype TypeRef = TypeRef(callable: bool, resolved: bool, name: string, path: string, args: seq<TypeRef>)

  /** A field: its type and what its docstring's `json` tag says, if it has one. */
  datatype FieldDecl = FieldDecl(name: string, ty: TypeRef, tag: Option<string>)

  datatype Struct = Struct(name: string, module_: string, fields: seq<FieldDecl>, generic: bool, complete: bool,
                           built: bool)

  function PathOf(s: Struct): string { s.module_ + "." + s.name }

  /** A package: the structs that asked for a codec, in order, and where type paths lead. */
  datatype Index = Index(asked: seq<Struct>, resolve: map<string, Struct>, alnum: char -> bool)

  const RAW: string := "core.encoding.json.RawMessage"

  // --- one field type ----------------------------------------------------------------

  function SignedBits(name: string): Option<nat> {
    if name == "Int" then Some(0) else if name == "Int8" then Some(8) else if name == "Int16" then Some(16)
    else if name == "Int32" then Some(32) else if name == "Int64" then Some(64) else None
  }

  function UnsignedBits(name: string): Option<nat> {
    if name == "UInt" then Some(0) else if name == "UInt8" then Some(8) else if name == "UInt16" then Some(16)
    else if name == "UInt32" then Some(32) else if name == "UInt64" then Some(64) else None
  }

  function FloatBits(name: string): Option<nat> {
    if name == "Float32" then Some(32) else if name == "Float64" then Some(64) else None
  }

  function ScalarFor(ref: TypeRef): Option<Encoding> {
    if ref.name == "Bool" then Some(EBool)
    else if SignedBits(ref.name).Some? then Some(EInt(SignedBits(ref.name).value))
    else if UnsignedBits(ref.name).Some? then Some(EUInt(UnsignedBits(ref.name).value))
    else if FloatBits(ref.name).Some? then Some(EFloat(FloatBits(ref.name).value))
    else if ref.name == "String" then Some(EString)
    else if ref.path == RAW then Some(ERaw)
    else None
  }

  /** `encoding`: what a type turns into, or nothing where it is refused.  `known` are the paths that asked. */
  function EncodingOf(ref: TypeRef, resolve: map<string, Struct>, known: set<string>): Option<Encoding>
    decreases ref
  {
    if ref.callable || !ref.resolved then None
    else if ScalarFor(ref).Some? then ScalarFor(ref)
    else if (ref.name == "Optional" || ref.name == "List") && |ref.args| == 1 then
      match EncodingOf(ref.args[0], resolve, known)
      case None => None
      case Some(inner) => Some(if ref.name == "Optional" then EOptional(inner) else EList(inner))
    else if ref.name == "Dict" && |ref.args| == 2 then
      if ref.args[0].name != "String" then None
      else
        match EncodingOf(ref.args[1], resolve, known)
        case None => None
        case Some(inner) => Some(EDict(inner))
    else if ref.path in resolve && PathOf(resolve[ref.path]) in known then Some(EStruct(resolve[ref.path].name))
    else None
  }

  /** The struct an accepted type leads to, by path rather than by name. */
  function LeadsTo(ref: TypeRef, resolve: map<string, Struct>): set<string>
    decreases ref
  {
    if ref.callable || !ref.resolved || ScalarFor(ref).Some? then {}
    else if (ref.name == "Optional" || ref.name == "List") && |ref.args| == 1 then LeadsTo(ref.args[0], resolve)
    else if ref.name == "Dict" && |ref.args| == 2 then LeadsTo(ref.args[1], resolve)
    else if ref.path in resolve then {PathOf(resolve[ref.path])}
    else {}
  }

  // --- what an encoding stands for ---------------------------------------------------------

  /** The number at the end of a type's name; the machine's own width has none. */
  function BitsText(bits: nat): string
    decreases bits
  {
    if bits == 0 then "" else BitsText(bits / 10) + [(bits % 10) as char + '0']
  }

  /** `spell`: the type an encoding is read into, as the generated file writes it. */
  function Spell(e: Encoding): string {
    match e
    case EBool => "Bool"
    case EInt(bits) => "Int" + BitsText(bits)
    case EUInt(bits) => "UInt" + BitsText(bits)
    case EFloat(bits) => "Float" + BitsText(bits)
    case EString => "String"
    case ERaw => "RawMessage"
    case EStruct(name) => name
    case EOptional(a) => "Optional[" + Spell(a) + "]"
    case EList(a) => "List[" + Spell(a) + "]"
    case EDict(a) => "Dict[String, " + Spell(a) + "]"
  }

  /** The types with a JSON form of their own. */
  const SCALARS: set<string> :=
    {"Bool", "Int", "Int8", "Int16", "Int32", "Int64", "UInt", "UInt8", "UInt16", "UInt32", "UInt64",
     "Float32", "Float64", "String"}

  /** `Optional` or `List` of one type, or `Dict` of strings to one. */
  predicate Container(ref: TypeRef) {
    || (ref.name in {"Optional", "List"} && |ref.args| == 1)
    || (ref.name == "Dict" && |ref.args| == 2)
  }

  /** The type a field was declared with, under the names the generated file has for it. */
  function TextOf(ref: TypeRef, resolve: map<string, Struct>): string
    decreases ref
  {
    if ref.name in SCALARS then ref.name
    else if ref.path == "core.encoding.json.RawMessage" then "RawMessage"
    else if Container(ref) && |ref.args| == 1 then ref.name + "[" + TextOf(ref.args[0], resolve) + "]"
    else if Container(ref) then ref.name + "[" + ref.args[0].name + ", " + TextOf(ref.args[1], resolve) + "]"
    else if ref.path in resolve then resolve[ref.path].name
    else ref.name
  }

  /** A type with a JSON form: a scalar, a raw message, a struct that asked, or a container of one. */
  predicate HasForm(ref: TypeRef, resolve: map<string, Struct>, known: set<string>)
    decreases ref
  {
    && !ref.callable && ref.resolved
    && (|| ref.name in SCALARS
        || ref.path == "core.encoding.json.RawMessage"
        || (ref.name in {"Optional", "List"} && |ref.args| == 1 && HasForm(ref.args[0], resolve, known))
        || (ref.name == "Dict" && |ref.args| == 2 && ref.args[0].name == "String"
            && HasForm(ref.args[1], resolve, known))
        || (!Container(ref) && ref.path in resolve
            && resolve[ref.path].module_ + "." + resolve[ref.path].name in known))
  }

  lemma {:induction false} Widths()
    ensures BitsText(0) == "" && BitsText(8) == "8" && BitsText(16) == "16" && BitsText(32) == "32"
    ensures BitsText(64) == "64"
  {
    assert BitsText(1) == "1" && BitsText(3) == "3" && BitsText(6) == "6";
  }

  lemma {:induction false} ScalarExactly(ref: TypeRef)
    ensures ScalarFor(ref).Some? <==> ref.name in SCALARS || ref.path == "core.encoding.json.RawMessage"
    ensures ScalarFor(ref).Some? ==>
      Spell(ScalarFor(ref).value) == if ref.name in SCALARS then ref.name else "RawMessage"
    ensures ScalarFor(ref).Some? ==> !Composite(ScalarFor(ref).value)
  {
    Widths();
  }

  /** Exactly these types are accepted. */
  lemma {:induction false} EncodingExactly(ref: TypeRef, resolve: map<string, Struct>, known: set<string>)
    ensures EncodingOf(ref, resolve, known).Some? <==> HasForm(ref, resolve, known)
    decreases ref
  {
    hide ScalarFor;
    ScalarExactly(ref);
    if ScalarFor(ref).Some? {
    } else if (ref.name == "Optional" || ref.name == "List") && |ref.args| == 1 {
      EncodingExactly(ref.args[0], resolve, known);
    } else if ref.name == "Dict" && |ref.args| == 2 {
      EncodingExactly(ref.args[1], resolve, known);
    }
  }

  lemma {:induction false} SpellOne(ref: TypeRef, resolve: map<string, Struct>, e: Encoding)
    requires ref.name in {"Optional", "List"} && |ref.args| == 1 && ScalarFor(ref).None?
    requires Spell(e) == TextOf(ref.args[0], resolve)
    ensures Spell(if ref.name == "Optional" then EOptional(e) else EList(e)) == TextOf(ref, resolve)
  {
    hide ScalarFor, BitsText;
    ScalarExactly(ref);
  }

  lemma {:induction false} SpellTwo(ref: TypeRef, resolve: map<string, Struct>, e: Encoding)
    requires ref.name == "Dict" && |ref.args| == 2 && ref.args[0].name == "String" && ScalarFor(ref).None?
    requires Spell(e) == TextOf(ref.args[1], resolve)
    ensures Spell(EDict(e)) == TextOf(ref, resolve)
  {
    hide ScalarFor, BitsText;
    ScalarExactly(ref);
    assert "Dict" + "[" + "String" + ", " == "Dict[String, ";
  }

  /** And an encoding spells the type it was made from. */
  lemma {:induction false} EncodingSpells(ref: TypeRef, resolve: map<string, Struct>, known: set<string>)
    requires EncodingOf(ref, resolve, known).Some?
    ensures Spell(EncodingOf(ref, resolve, known).value) == TextOf(ref, resolve)
    decreases ref
  {
    hide ScalarFor, Spell;
    ScalarExactly(ref);
    if ScalarFor(ref).Some? {
    } else if (ref.name == "Optional" || ref.name == "List") && |ref.args| == 1 {
      EncodingSpells(ref.args[0], resolve, known);
      SpellOne(ref, resolve, EncodingOf(ref.args[0], resolve, known).value);
    } else if ref.name == "Dict" && |ref.args| == 2 {
      EncodingSpells(ref.args[1], resolve, known);
      SpellTwo(ref, resolve, EncodingOf(ref.args[1], resolve, known).value);
    } else {
      SpellStruct(ref, resolve);
    }
  }

  lemma {:induction false} SpellStruct(ref: TypeRef, resolve: map<string, Struct>)
    requires !Container(ref) && ScalarFor(ref).None? && ref.path in resolve
    ensures Spell(EStruct(resolve[ref.path].name)) == TextOf(ref, resolve)
  {
    hide ScalarFor, BitsText;
    ScalarExactly(ref);
  }

  // --- one struct ----------------------------------------------------------------------

  /** The tag of a field, as `tags.read` gives it. */
  function TagOf(d: FieldDecl): Tag {
    match d.tag
    case None => Tag(d.name, false, false)
    case Some(value) =>
      if value == "-" then Tag("", true, false)
      else Tag(if Split(value)[0] == [] then d.name else Split(value)[0], false, OMITEMPTY in Options(value))
  }

  predicate TagFine(alnum: char -> bool, d: FieldDecl) {
    match d.tag
    case None => true
    case Some(value) => value == "-" || Checked(alnum, value)
  }

  /** What one field becomes, when nothing is wrong with it. */
  function MemberOf(w: Index, known: set<string>, d: FieldDecl): Option<Member> {
    var tag := TagOf(d);
    if tag.skip then Some(Skipped(d.name))
    else
      match EncodingOf(d.ty, w.resolve, known)
      case None => None
      case Some(e) => if tag.omitempty && !Absent(e) then None else Some(Field(d.name, tag.name, e, tag.omitempty))
  }

  /** What a tag other than `-` says, by how it is written: the name in the document, and whether to leave it out. */
  ghost predicate TagSays(d: FieldDecl, json: string, omitempty: bool) {
    || (d.tag.None? && json == d.name && !omitempty)
    || (d.tag == Some("-,") && json == "-" && !omitempty)
    || (exists name :: ',' !in name && json == (if name == "" then d.name else name)
          && d.tag == Some(if omitempty then name + ",omitempty" else name))
  }

  /** A type with an empty value nobody has to invent. */
  predicate MayBeAbsent(ref: TypeRef) {
    ref.name !in SCALARS && (ref.path == "core.encoding.json.RawMessage" || Container(ref))
  }

  /** A field the generator takes: a tag it knows, a type with a form, and a kind that can be absent if `omitempty`. */
  ghost predicate Acceptable(w: Index, known: set<string>, d: FieldDecl) {
    || d.tag == Some("-")
    || ((d.tag.None? || Proper(w.alnum, d.tag.value)) && HasForm(d.ty, w.resolve, known)
        && (forall json :: TagSays(d, json, true) ==> MayBeAbsent(d.ty)))
  }

  /** The member a field becomes. */
  ghost predicate Becomes(w: Index, d: FieldDecl, m: Member) {
    if d.tag == Some("-") then m == Skipped(d.name)
    else m.Field? && m.name == d.name && TagSays(d, m.json, m.omitempty) && Spell(m.encoding) == TextOf(d.ty, w.resolve)
  }

  lemma {:induction false} SplitOmitting(name: string)
    requires ',' !in name
    ensures Split(name + ",omitempty") == [name, OMITEMPTY] && name + ",omitempty" != "-," && name + ",omitempty" != "-"
  {
    assert Join([name, OMITEMPTY]) == name + ",omitempty";
    SplitJoin([name, OMITEMPTY]);
    assert (name + ",omitempty")[|name| + 1] == 'o';
  }

  /** A name with no comma in it is no other tag. */
  lemma {:induction false} CommaApart(a: string, b: string)
    requires ',' !in a
    ensures a != b + ",omitempty" && a != "-,"
  {
    assert (b + ",omitempty")[|b|] == ',' && "-,"[1] == ',';
  }

  lemma {:induction false} OmittingApart(a: string, b: string)
    requires ',' !in a && ',' !in b && a + ",omitempty" == b + ",omitempty"
    ensures a == b
  {
    SplitOmitting(a);
    SplitOmitting(b);
  }

  /** Reading a tag finds what it says. */
  lemma {:induction false} TagMeans(alnum: char -> bool, d: FieldDecl, json: string, omitempty: bool)
    requires TagFine(alnum, d) && d.tag != Some("-")
    ensures TagSays(d, json, omitempty) <==> json == TagOf(d).name && omitempty == TagOf(d).omitempty
    ensures !TagOf(d).skip
  {
    if d.tag.Some? {
      var value := d.tag.value;
      if exists name :: ',' !in name && value == name + ",omitempty" {
        var name :| ',' !in name && value == name + ",omitempty";
        TagOmits(d, name, json, omitempty);
      } else if value == "-," {
        TagDashes(d, json, omitempty);
      } else {
        NameOfChecked(alnum, value);
        assert Split(value)[0] + "," + OMITEMPTY == Split(value)[0] + ",omitempty";
        TagNames(d, value, json, omitempty);
      }
    }
  }

  lemma {:induction false} TagOmits(d: FieldDecl, name: string, json: string, omitempty: bool)
    requires ',' !in name && d.tag == Some(name + ",omitempty")
    ensures TagSays(d, json, omitempty) <==> json == TagOf(d).name && omitempty == TagOf(d).omitempty
    ensures !TagOf(d).skip
  {
    SplitOmitting(name);
    assert [name, OMITEMPTY][1..] == [OMITEMPTY];
    forall other: string | ',' !in other
      ensures other != name + ",omitempty"
      ensures other + ",omitempty" == name + ",omitempty" ==> other == name
    {
      CommaApart(other, name);
      if other + ",omitempty" == name + ",omitempty" { OmittingApart(other, name); }
    }
  }

  lemma {:induction false} TagDashes(d: FieldDecl, json: string, omitempty: bool)
    requires d.tag == Some("-,")
    ensures TagSays(d, json, omitempty) <==> json == TagOf(d).name && omitempty == TagOf(d).omitempty
    ensures !TagOf(d).skip
  {
    assert Join(["-", ""]) == "-,";
    SplitJoin(["-", ""]);
    forall other: string | ',' !in other ensures other != "-," && other + ",omitempty" != "-," {
      CommaApart(other, "");
      SplitOmitting(other);
    }
  }

  lemma {:induction false} TagNames(d: FieldDecl, name: string, json: string, omitempty: bool)
    requires ',' !in name && d.tag == Some(name) && name != "-" && name != "-,"
    ensures TagSays(d, json, omitempty) <==> json == TagOf(d).name && omitempty == TagOf(d).omitempty
    ensures !TagOf(d).skip
  {
    SplitPlain(name);
    forall other: string ensures name != other + ",omitempty" { CommaApart(name, other); }
    assert Options(name) == [];
    assert d.tag == Some(if false then name + ",omitempty" else name);
  }

  lemma {:induction false} AbsentExactly(ref: TypeRef, resolve: map<string, Struct>, known: set<string>)
    requires EncodingOf(ref, resolve, known).Some?
    ensures Absent(EncodingOf(ref, resolve, known).value) <==> MayBeAbsent(ref)
  {
    ScalarExactly(ref);
  }

  /** A field becomes a member exactly when it is acceptable, and the member says what the field says. */
  lemma {:induction false} MemberExactly(w: Index, known: set<string>, d: FieldDecl)
    ensures TagFine(w.alnum, d) && MemberOf(w, known, d).Some? <==> Acceptable(w, known, d)
    ensures Acceptable(w, known, d) ==> Becomes(w, d, MemberOf(w, known, d).value)
  {
    hide Spell, TextOf, HasForm, EncodingOf, TagSays, MayBeAbsent, Checked, Proper;
    if d.tag != Some("-") {
      if d.tag.Some? { ProperIsFine(w.alnum, d.tag.value); }
      EncodingExactly(d.ty, w.resolve, known);
      if TagFine(w.alnum, d) {
        var tag := TagOf(d);
        TagMeans(w.alnum, d, tag.name, tag.omitempty);
        forall json ensures TagSays(d, json, true) <==> json == tag.name && tag.omitempty {
          TagMeans(w.alnum, d, json, true);
        }
        if EncodingOf(d.ty, w.resolve, known).Some? {
          EncodingSpells(d.ty, w.resolve, known);
          AbsentExactly(d.ty, w.resolve, known);
        }
      }
    }
  }

  ghost predicate MembersFine(w: Index, known: set<string>, fields: seq<FieldDecl>) {
    forall i :: 0 <= i < |fields| ==> TagFine(w.alnum, fields[i]) && MemberOf(w, known, fields[i]).Some?
  }

  function MembersOf(w: Index, known: set<string>, fields: seq<FieldDecl>): seq<Member> {
    if fields == [] then []
    else
      MembersOf(w, known, fields[..|fields| - 1])
      + (match MemberOf(w, known, fields[|fields| - 1]) case None => [] case Some(m) => [m])
  }

  function NamedOf(ms: seq<Member>): seq<Named> {
    if ms == [] then []
    else
      NamedOf(ms[..|ms| - 1])
      + (if ms[|ms| - 1].Field? then [Named(ms[|ms| - 1].name, ms[|ms| - 1].json)] else [])
  }

  /** Everything `one` looks at before it gives a codec. */
  ghost predicate Plannable(w: Index, known: set<string>, s: Struct) {
    && !s.generic && s.complete && s.built
    && MembersFine(w, known, s.fields)
    && Unique(NamedOf(MembersOf(w, known, s.fields)))
  }

  lemma {:induction false} FineStep(w: Index, known: set<string>, fields: seq<FieldDecl>, i: nat)
    requires i < |fields|
    ensures MembersFine(w, known, fields[..i + 1]) <==>
      MembersFine(w, known, fields[..i]) && TagFine(w.alnum, fields[i]) && MemberOf(w, known, fields[i]).Some?
  {
    var longer, shorter := fields[..i + 1], fields[..i];
    assert longer[i] == fields[i];
    if MembersFine(w, known, longer) {
      forall k | 0 <= k < i ensures TagFine(w.alnum, shorter[k]) && MemberOf(w, known, shorter[k]).Some? {
        assert shorter[k] == longer[k];
      }
    }
  }

  lemma {:induction false} MembersStep(w: Index, known: set<string>, fields: seq<FieldDecl>, i: nat)
    requires i < |fields|
    ensures MembersOf(w, known, fields[..i + 1]) == MembersOf(w, known, fields[..i])
      + (match MemberOf(w, known, fields[i]) case None => [] case Some(m) => [m])
  {
    var longer := fields[..i + 1];
    assert longer[..|longer| - 1] == fields[..i];
    assert longer[|longer| - 1] == fields[i];
  }

  lemma {:induction false} NamedStep(ms: seq<Member>, m: Member)
    ensures NamedOf(ms + [m]) == NamedOf(ms) + (if m.Field? then [Named(m.name, m.json)] else [])
  {
    assert (ms + [m])[..|ms|] == ms;
  }

  /** One turn of the loop of `one`: the member a field becomes, and how many things are wrong with it. */
  method OneField(w: Index, known: set<string>, d: FieldDecl) returns (m: Option<Member>, wrong: nat)
    ensures wrong == 0 <==> TagFine(w.alnum, d) && MemberOf(w, known, d).Some?
    ensures wrong == 0 ==> m == MemberOf(w, known, d)
  {
    var tag, problems := Read(w.alnum, d.name, d.tag);
    if d.tag.Some? && d.tag.value != "-" { ProperIsFine(w.alnum, d.tag.value); }
    wrong := |problems|;
    if tag.skip {
      m := Some(Skipped(d.name));
      return;
    }
    var found := EncodingOf(d.ty, w.resolve, known);
    if found.None? {
      wrong := wrong + 1;
      m := None;
      return;
    }
    if tag.omitempty && !Absent(found.value) { wrong := wrong + 1; }
    m := Some(Field(d.name, tag.name, found.value, tag.omitempty));
  }

  lemma {:induction false} MembersAre(w: Index, known: set<string>, fields: seq<FieldDecl>)
    requires MembersFine(w, known, fields)
    ensures |MembersOf(w, known, fields)| == |fields|
    ensures forall i :: 0 <= i < |fields| ==> MemberOf(w, known, fields[i]) == Some(MembersOf(w, known, fields)[i])
  {
    if fields != [] {
      var init := fields[..|fields| - 1];
      forall i | 0 <= i < |init| ensures TagFine(w.alnum, init[i]) && MemberOf(w, known, init[i]).Some? {
        assert init[i] == fields[i];
      }
      MembersAre(w, known, init);
      forall i | 0 <= i < |fields| ensures MemberOf(w, known, fields[i]) == Some(MembersOf(w, known, fields)[i]) {
        if i < |init| { assert init[i] == fields[i]; }
      }
    }
  }

  lemma {:induction false} NamedKeeps(ms: seq<Member>, i: nat) returns (k: nat)
    requires i < |ms| && ms[i].Field?
    ensures k < |NamedOf(ms)| && NamedOf(ms)[k] == Named(ms[i].name, ms[i].json)
    ensures k == |NamedOf(ms[..i])|
  {
    if i == |ms| - 1 {
      k := |NamedOf(ms[..i])|;
    } else {
      assert ms[..|ms| - 1][..i] == ms[..i];
      k := NamedKeeps(ms[..|ms| - 1], i);
    }
  }

  lemma {:induction false} NamedGrows(ms: seq<Member>, i: nat, j: nat)
    requires i < j <= |ms| && ms[i].Field?
    ensures |NamedOf(ms[..i])| < |NamedOf(ms[..j])|
  {
    assert ms[..j][..j - 1] == ms[..j - 1];
    if i < j - 1 { NamedGrows(ms, i, j - 1); }
  }

  lemma {:induction false} UniqueJson(ms: seq<Member>, i: nat, j: nat)
    requires Unique(NamedOf(ms)) && i < j < |ms| && ms[i].Field? && ms[j].Field?
    ensures ms[i].json != ms[j].json
  {
    var a := NamedKeeps(ms, i);
    var b := NamedKeeps(ms, j);
    NamedGrows(ms, i, j);
  }

  lemma {:induction false} NamedIs(ms: seq<Member>, k: nat) returns (i: nat)
    requires k < |NamedOf(ms)|
    ensures i < |ms| && ms[i].Field? && NamedOf(ms)[k] == Named(ms[i].name, ms[i].json)
  {
    var init := ms[..|ms| - 1];
    if k < |NamedOf(init)| { i := NamedIs(init, k); } else { i := |ms| - 1; }
  }

  ghost predicate JsonApart(ms: seq<Member>) {
    forall i, j :: 0 <= i < j < |ms| && ms[i].Field? && ms[j].Field? ==> ms[i].json != ms[j].json
  }

  lemma {:induction false} UniqueExactly(ms: seq<Member>)
    ensures Unique(NamedOf(ms)) <==> JsonApart(ms)
  {
    if Unique(NamedOf(ms)) {
      forall i, j | 0 <= i < j < |ms| && ms[i].Field? && ms[j].Field? ensures ms[i].json != ms[j].json {
        UniqueJson(ms, i, j);
      }
    }
    if ms != [] && JsonApart(ms) {
      var init, last := ms[..|ms| - 1], ms[|ms| - 1];
      assert JsonApart(init);
      UniqueExactly(init);
      forall k | 0 <= k < |NamedOf(init)| && last.Field? ensures NamedOf(init)[k].json != last.json {
        var i := NamedIs(init, k);
        assert ms[i] == init[i];
      }
    }
  }

  /** No two fields on the wire have one name there. */
  ghost predicate NamesApart(fields: seq<FieldDecl>) {
    forall i, j :: 0 <= i < j < |fields| && fields[i].tag != Some("-") && fields[j].tag != Some("-") ==>
      NameApart(fields[i], fields[j])
  }

  ghost predicate NameApart(a: FieldDecl, b: FieldDecl) {
    forall json, x, y :: TagSays(a, json, x) && TagSays(b, json, y) ==> false
  }

  lemma {:induction false} NameApartMeans(alnum: char -> bool, a: FieldDecl, b: FieldDecl)
    requires TagFine(alnum, a) && TagFine(alnum, b) && a.tag != Some("-") && b.tag != Some("-")
    ensures NameApart(a, b) <==> TagOf(a).name != TagOf(b).name
  {
    hide TagSays, TagOf, TagFine;
    TagMeans(alnum, a, TagOf(a).name, TagOf(a).omitempty);
    TagMeans(alnum, b, TagOf(a).name, TagOf(b).omitempty);
    forall json, x, y | TagSays(a, json, x) && TagSays(b, json, y) ensures TagOf(a).name == TagOf(b).name {
      TagMeans(alnum, a, json, x);
      TagMeans(alnum, b, json, y);
    }
  }

  lemma {:induction false} MemberName(w: Index, known: set<string>, d: FieldDecl)
    requires TagFine(w.alnum, d) && MemberOf(w, known, d).Some?
    ensures var m := MemberOf(w, known, d).value;
      (m.Field? <==> d.tag != Some("-")) && (m.Field? ==> m.json == TagOf(d).name)
  {
    hide EncodingOf, TagSays;
    if d.tag != Some("-") { TagMeans(w.alnum, d, "", false); }
  }

  /** What `one` asks of a struct, told from its fields alone. */
  ghost predicate Takes(w: Index, known: set<string>, s: Struct) {
    && !s.generic && s.complete && s.built
    && (forall i :: 0 <= i < |s.fields| ==> Acceptable(w, known, s.fields[i]))
    && NamesApart(s.fields)
  }

  lemma {:induction false} PlannableExactly(w: Index, known: set<string>, s: Struct)
    ensures Plannable(w, known, s) <==> Takes(w, known, s)
    ensures Plannable(w, known, s) ==>
      |MembersOf(w, known, s.fields)| == |s.fields|
      && forall i :: 0 <= i < |s.fields| ==> Becomes(w, s.fields[i], MembersOf(w, known, s.fields)[i])
  {
    hide Acceptable, Becomes, TagFine, NameApart, MemberOf;
    forall i | 0 <= i < |s.fields|
      ensures TagFine(w.alnum, s.fields[i]) && MemberOf(w, known, s.fields[i]).Some?
        <==> Acceptable(w, known, s.fields[i])
      ensures Acceptable(w, known, s.fields[i]) ==> Becomes(w, s.fields[i], MemberOf(w, known, s.fields[i]).value)
    {
      MemberExactly(w, known, s.fields[i]);
    }
    if MembersFine(w, known, s.fields) {
      var ms := MembersOf(w, known, s.fields);
      MembersAre(w, known, s.fields);
      UniqueExactly(ms);
      forall i, j | 0 <= i < j < |ms|
        ensures (ms[i].Field? <==> s.fields[i].tag != Some("-")) && (ms[j].Field? <==> s.fields[j].tag != Some("-"))
        ensures ms[i].Field? && ms[j].Field? ==> (ms[i].json != ms[j].json <==> NameApart(s.fields[i], s.fields[j]))
      {
        MemberName(w, known, s.fields[i]);
        MemberName(w, known, s.fields[j]);
        if ms[i].Field? && ms[j].Field? { NameApartMeans(w.alnum, s.fields[i], s.fields[j]); }
      }
      assert JsonApart(ms) <==> NamesApart(s.fields);
    }
  }

  /** `one`: a struct's codec, or nothing when there is a problem with it. */
  method One(order: set<string> -> seq<string>, w: Index, known: set<string>, s: Struct) returns (r: Option<Codec>)
    requires forall x: set<string> :: Distinct(order(x)) && forall y :: y in order(x) <==> y in x
    ensures r.Some? <==> Plannable(w, known, s)
    ensures r.Some? ==> r.value == Codec(s.name, MembersOf(w, known, s.fields))
    ensures r.Some? <==> Takes(w, known, s)
    ensures r.Some? ==> r.value.name == s.name && |r.value.members| == |s.fields|
    ensures r.Some? ==> forall i :: 0 <= i < |s.fields| ==> Becomes(w, s.fields[i], r.value.members[i])
  {
    hide Takes, Becomes;
    PlannableExactly(w, known, s);
    var problems: nat := 0;
    if s.generic { problems := problems + 1; }
    if !s.complete { problems := problems + 1; }
    if !s.built { problems := problems + 1; }
    var members: seq<Member> := [];
    var named: seq<Named> := [];
    ghost var before := problems;
    for i := 0 to |s.fields|
      invariant problems >= before
      invariant problems == before <==> MembersFine(w, known, s.fields[..i])
      invariant problems == before ==> members == MembersOf(w, known, s.fields[..i]) && named == NamedOf(members)
    {
      FineStep(w, known, s.fields, i);
      MembersStep(w, known, s.fields, i);
      var m, wrong := OneField(w, known, s.fields[i]);
      problems := problems + wrong;
      if m.Some? {
        NamedStep(members, m.value);
        members := members + [m.value];
        if m.value.Field? { named := named + [Named(m.value.name, m.value.json)]; }
      }
    }
    assert s.fields[..|s.fields|] == s.fields;
    var clashes := Collide(order, named);
    problems := problems + |clashes|;
    r := if problems == 0 then Some(Codec(s.name, members)) else None;
  }
}
