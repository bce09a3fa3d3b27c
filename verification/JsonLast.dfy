/**
 What a document means to a generated decoder: only the last value of each key
 a field has.  The standard leaves repeated names open (section 4 of RFC 8259).
 */
module JsonLast {
  import opened Common
  import opened JsonModel
  import opened JsonText
  import opened JsonSkip
  import opened JsonRoundTrip
  import D = EmitDecoder
  import DR = DecoderRuns

  // --- a read that succeeds does not look past the value --------------------------

  ghost predicate Longer<T>(short: Outcome<(T, seq<Token>)>, long: Outcome<(T, seq<Token>)>, more: seq<Token>) {
    short.Ok? ==> long == Ok((short.value.0, short.value.1 + more))
  }

  lemma {:induction false} Pushed(toks: seq<Token>, more: seq<Token>, t: Token)
    requires toks != []
    ensures (toks + more)[0] == toks[0] && (toks + more)[1..] == toks[1..] + more
    ensures StartsWith(toks + more, t) == StartsWith(toks, t)
  {
  }

  lemma {:induction false} SkipLonger(toks: seq<Token>, more: seq<Token>, depth: nat)
    requires depth <= MAX_NESTING_DEPTH && Skip(toks, [], depth, MAX_NESTING_DEPTH).Ok?
    ensures Skip(toks + more, [], depth, MAX_NESTING_DEPTH) == Ok(Skip(toks, [], depth, MAX_NESTING_DEPTH).value + more)
  {
    SkipElsewhere(toks, [], depth, MAX_NESTING_DEPTH, [], depth, MAX_NESTING_DEPTH);
    assert toks + [] == toks;
    SkipElsewhere(toks, [], depth, MAX_NESTING_DEPTH, more, depth, MAX_NESTING_DEPTH);
  }

  lemma {:induction false} RawLonger(toks: seq<Token>, more: seq<Token>, depth: nat)
    requires depth <= MAX_NESTING_DEPTH
    ensures Longer(ReadRaw(toks, depth), ReadRaw(toks + more, depth), more)
  {
    if ReadRaw(toks, depth).Ok? {
      SkipLonger(toks, more, depth);
      var rest := Skip(toks, [], depth, MAX_NESTING_DEPTH).value;
      assert (toks + more)[..|toks| - |rest|] == toks[..|toks| - |rest|];
    }
  }

  lemma {:induction false} ReadLonger(p: Codecs, strict: bool, e: Encoding, toks: seq<Token>, more: seq<Token>,
                                      depth: nat)
    requires depth <= MAX_NESTING_DEPTH
    ensures Longer(Read(p, strict, e, toks, depth), Read(p, strict, e, toks + more, depth), more)
    decreases |toks|, 1, e
  {
    if Read(p, strict, e, toks, depth).Ok? {
      Pushed(toks, more, NullWord);
      match e
      case ERaw => RawLonger(toks, more, depth);
      case EStruct(n) => StructLonger(p, strict, n, toks, more, depth);
      case EOptional(a) => if !StartsWith(toks, NullWord) { ReadLonger(p, strict, a, toks, more, depth); }
      case EList(a) => ListLonger(p, strict, a, toks, more, depth);
      case EDict(a) => DictLonger(p, strict, a, toks, more, depth);
      case _ =>
    }
  }

  lemma {:induction false} ListLonger(p: Codecs, strict: bool, a: Encoding, toks: seq<Token>, more: seq<Token>,
                                      depth: nat)
    requires Read(p, strict, EList(a), toks, depth).Ok?
    ensures Longer(Read(p, strict, EList(a), toks, depth), Read(p, strict, EList(a), toks + more, depth), more)
    decreases |toks|, 0
  {
    var body := toks[1..];
    assert toks == [LBracket] + body;
    assert toks + more == [LBracket] + (body + more);
    ListShape(p, strict, a, body, depth);
    ListShape(p, strict, a, body + more, depth);
    if body != [] {
      Pushed(body, more, RBracket);
      if !StartsWith(body, RBracket) { ItemsLonger(p, strict, a, body, more, depth + 1, []); }
    }
  }

  lemma {:induction false} ItemsLonger(p: Codecs, strict: bool, a: Encoding, toks: seq<Token>, more: seq<Token>,
                                       depth: nat, acc: seq<Value>)
    requires depth <= MAX_NESTING_DEPTH
    ensures Longer(ReadItems(p, strict, a, toks, depth, acc), ReadItems(p, strict, a, toks + more, depth, acc), more)
    decreases |toks|, 2
  {
    if ReadItems(p, strict, a, toks, depth, acc).Ok? {
      ReadLonger(p, strict, a, toks, more, depth);
      var vt := Read(p, strict, a, toks, depth).value;
      Pushed(vt.1, more, Comma);
      Pushed(vt.1, more, RBracket);
      if StartsWith(vt.1, Comma) { ItemsLonger(p, strict, a, vt.1[1..], more, depth, acc + [vt.0]); }
    }
  }

  lemma {:induction false} DictLonger(p: Codecs, strict: bool, a: Encoding, toks: seq<Token>, more: seq<Token>,
                                      depth: nat)
    requires Read(p, strict, EDict(a), toks, depth).Ok?
    ensures Longer(Read(p, strict, EDict(a), toks, depth), Read(p, strict, EDict(a), toks + more, depth), more)
    decreases |toks|, 0
  {
    var body := toks[1..];
    assert toks == [LBrace] + body;
    assert toks + more == [LBrace] + (body + more);
    DictShape(p, strict, a, body, depth);
    DictShape(p, strict, a, body + more, depth);
    if body != [] {
      Pushed(body, more, RBrace);
      if !StartsWith(body, RBrace) { EntriesLonger(p, strict, a, body, more, depth + 1, map[]); }
    }
  }

  lemma {:induction false} EntriesLonger(p: Codecs, strict: bool, a: Encoding, toks: seq<Token>, more: seq<Token>,
                                         depth: nat, acc: map<string, Value>)
    requires depth <= MAX_NESTING_DEPTH
    ensures Longer(ReadEntries(p, strict, a, toks, depth, acc), ReadEntries(p, strict, a, toks + more, depth, acc),
                   more)
    decreases |toks|, 2
  {
    if ReadEntries(p, strict, a, toks, depth, acc).Ok? {
      KeyAndColonElsewhere(toks, more);
      var kt := KeyAndColon(toks).value;
      ReadLonger(p, strict, a, kt.1, more, depth);
      var vt := Read(p, strict, a, kt.1, depth).value;
      Pushed(vt.1, more, Comma);
      Pushed(vt.1, more, RBrace);
      if StartsWith(vt.1, Comma) { EntriesLonger(p, strict, a, vt.1[1..], more, depth, acc[kt.0 := vt.0]); }
    }
  }

  lemma {:induction false} StructLonger(p: Codecs, strict: bool, n: string, toks: seq<Token>, more: seq<Token>,
                                        depth: nat)
    requires ReadStruct(p, strict, n, toks, depth).Ok?
    ensures Longer(ReadStruct(p, strict, n, toks, depth), ReadStruct(p, strict, n, toks + more, depth), more)
    decreases |toks|, 0
  {
    var body := toks[1..];
    assert toks == [LBrace] + body;
    assert toks + more == [LBrace] + (body + more);
    StructShape(p, strict, n, body, depth);
    StructShape(p, strict, n, body + more, depth);
    if body != [] {
      Pushed(body, more, RBrace);
      if !StartsWith(body, RBrace) { MembersLonger(p, strict, p[n], body, more, depth + 1, map[]); }
    }
  }

  lemma {:induction false} MemberLonger(p: Codecs, strict: bool, c: Codec, key: string, toks: seq<Token>,
                                        more: seq<Token>, depth: nat, slots: map<string, Value>)
    requires depth <= MAX_NESTING_DEPTH
    ensures Longer(ReadMember(p, strict, c, key, toks, depth, slots),
                   ReadMember(p, strict, c, key, toks + more, depth, slots), more)
    decreases |toks|, 2
  {
    match FieldFor(c, key)
    case None => if ReadMember(p, strict, c, key, toks, depth, slots).Ok? { SkipLonger(toks, more, depth); }
    case Some(i) => ReadLonger(p, strict, c.members[i].encoding, toks, more, depth);
  }

  lemma {:induction false} MembersLonger(p: Codecs, strict: bool, c: Codec, toks: seq<Token>, more: seq<Token>,
                                         depth: nat, slots: map<string, Value>)
    requires depth <= MAX_NESTING_DEPTH
    ensures Longer(ReadMembers(p, strict, c, toks, depth, slots),
                   ReadMembers(p, strict, c, toks + more, depth, slots), more)
    decreases |toks|, 3
  {
    if ReadMembers(p, strict, c, toks, depth, slots).Ok? {
      KeyAndColonElsewhere(toks, more);
      var kt := KeyAndColon(toks).value;
      MemberLonger(p, strict, c, kt.0, kt.1, more, depth, slots);
      var st := ReadMember(p, strict, c, kt.0, kt.1, depth, slots).value;
      Pushed(st.1, more, Comma);
      Pushed(st.1, more, RBrace);
      if StartsWith(st.1, Comma) { MembersLonger(p, strict, c, st.1[1..], more, depth, st.0); }
    }
  }

  // --- objects written member by member --------------------------------------------

  /** One member of an object as it stands in a document. */
  datatype Entry = Entry(key: string, text: seq<Token>)

  function Body(entries: seq<Entry>, first: bool): seq<Token> {
    if entries == [] then []
    else CommaUnless(first) + [Text(entries[0].key), Colon] + entries[0].text + Body(entries[1..], false)
  }

  function Object(entries: seq<Entry>): seq<Token> {
    [LBrace] + Body(entries, true) + [RBrace]
  }

  /** The member's text is one value at this depth, and of the field's type where there is a field. */
  ghost predicate Fits(p: Codecs, strict: bool, c: Codec, x: Entry, depth: nat) {
    match FieldFor(c, x.key)
    case None => !strict && Skip(x.text, [], depth, MAX_NESTING_DEPTH) == Ok([])
    case Some(i) =>
      var r := Read(p, strict, c.members[i].encoding, x.text, depth);
      r.Ok? && r.value.1 == []
  }

  ghost predicate AllFit(p: Codecs, strict: bool, c: Codec, entries: seq<Entry>, depth: nat) {
    forall i :: 0 <= i < |entries| ==> Fits(p, strict, c, entries[i], depth)
  }

  /** The text under the last occurrence of a key. */
  function LastText(entries: seq<Entry>, key: string): Option<seq<Token>> {
    if entries == [] then None
    else if entries[|entries| - 1].key == key then Some(entries[|entries| - 1].text)
    else LastText(entries[..|entries| - 1], key)
  }

  /** What one member leaves in the slots. */
  ghost function SlotsWith(p: Codecs, strict: bool, c: Codec, x: Entry, depth: nat,
                           slots: map<string, Value>): map<string, Value>
    requires Fits(p, strict, c, x, depth)
  {
    match FieldFor(c, x.key)
    case None => slots
    case Some(i) => slots[c.members[i].name := Read(p, strict, c.members[i].encoding, x.text, depth).value.0]
  }

  /** What a whole object leaves in them, one member after another. */
  ghost function SlotsAfter(p: Codecs, strict: bool, c: Codec, entries: seq<Entry>, depth: nat,
                            slots: map<string, Value>): map<string, Value>
    requires AllFit(p, strict, c, entries, depth)
  {
    if entries == [] then slots
    else SlotsAfter(p, strict, c, entries[1..], depth, SlotsWith(p, strict, c, entries[0], depth, slots))
  }

  lemma {:induction false} EntryMember(p: Codecs, strict: bool, c: Codec, x: Entry, more: seq<Token>, depth: nat,
                    slots: map<string, Value>)
    requires Fits(p, strict, c, x, depth) && depth <= MAX_NESTING_DEPTH
    ensures ReadMember(p, strict, c, x.key, x.text + more, depth, slots)
            == Ok((SlotsWith(p, strict, c, x, depth, slots), more))
  {
    MemberLonger(p, strict, c, x.key, x.text, more, depth, slots);
    assert [] + more == more;
  }

  /** An object is read member by member, whatever comes after it. */
  lemma {:induction false} ObjectSlots(p: Codecs, strict: bool, c: Codec, entries: seq<Entry>, rest: seq<Token>,
                                       depth: nat, slots: map<string, Value>)
    requires AllFit(p, strict, c, entries, depth) && depth <= MAX_NESTING_DEPTH
    ensures AfterMember(p, strict, c, Body(entries, false) + [RBrace] + rest, depth, slots)
            == Ok((SlotsAfter(p, strict, c, entries, depth, slots), rest))
    ensures entries != [] ==>
      ReadMembers(p, strict, c, Body(entries, true) + [RBrace] + rest, depth, slots)
      == Ok((SlotsAfter(p, strict, c, entries, depth, slots), rest))
  {
    hide Fits, SlotsWith, ReadMembers, ReadMember;
    if entries == [] {
      assert Body(entries, false) + [RBrace] + rest == [RBrace] + rest;
      assert ([RBrace] + rest)[1..] == rest;
    } else {
      var x, tail := entries[0], entries[1..];
      var after := Body(tail, false) + [RBrace] + rest;
      BodyFirst(entries, rest);
      EntryMember(p, strict, c, x, after, depth, slots);
      MemberStep(p, strict, c, x.key, x.text + after, depth, slots);
      ObjectSlots(p, strict, c, tail, rest, depth, SlotsWith(p, strict, c, x, depth, slots));
    }
  }

  lemma {:induction false} BodyFirst(entries: seq<Entry>, rest: seq<Token>)
    requires entries != []
    ensures var after := Body(entries[1..], false) + [RBrace] + rest;
      var whole := [Text(entries[0].key), Colon] + (entries[0].text + after);
      && Body(entries, true) + [RBrace] + rest == whole
      && Body(entries, false) + [RBrace] + rest == [Comma] + whole
      && (Body(entries, false) + [RBrace] + rest)[1..] == whole
  {
  }

  /** What a field's variable holds after the whole object, told from the last occurrence alone. */
  ghost function SlotOf(p: Codecs, strict: bool, c: Codec, i: nat, entries: seq<Entry>, depth: nat): Option<Value>
    requires i < |c.members| && c.members[i].Field?
  {
    match LastText(entries, c.members[i].json)
    case None => None
    case Some(text) =>
      match Read(p, strict, c.members[i].encoding, text, depth)
      case Failed(_) => None
      case Ok(vt) => Some(vt.0)
  }

  lemma {:induction false} SlotsAfterLast(p: Codecs, strict: bool, c: Codec, entries: seq<Entry>, x: Entry,
                                          depth: nat, slots: map<string, Value>)
    requires AllFit(p, strict, c, entries, depth) && Fits(p, strict, c, x, depth)
    ensures AllFit(p, strict, c, entries + [x], depth)
    ensures SlotsAfter(p, strict, c, entries + [x], depth, slots)
            == SlotsWith(p, strict, c, x, depth, SlotsAfter(p, strict, c, entries, depth, slots))
  {
    hide Fits, SlotsWith;
    if entries == [] {
      assert entries + [x] == [x] && [x][1..] == [];
    } else {
      assert (entries + [x])[1..] == entries[1..] + [x];
      SlotsAfterLast(p, strict, c, entries[1..], x, depth, SlotsWith(p, strict, c, entries[0], depth, slots));
    }
  }

  /** Each variable ends up with the last occurrence of its key, and nothing else matters. */
  lemma {:induction false} SlotIsLast(p: Codecs, strict: bool, c: Codec, i: nat, entries: seq<Entry>, depth: nat)
    requires SoundCodec(c) && Decodable(c) && i < |c.members|
    requires AllFit(p, strict, c, entries, depth)
    ensures Get(SlotsAfter(p, strict, c, entries, depth, map[]), c.members[i].name)
      == SlotOf(p, strict, c, i, entries, depth)
    decreases |entries|
  {
    hide Read, Skip, SlotsAfter;
    if entries == [] {
      assert SlotsAfter(p, strict, c, entries, depth, map[]) == map[] by { NoSlots(p, strict, c, depth); }
    } else {
      var init, x := entries[..|entries| - 1], entries[|entries| - 1];
      assert entries == init + [x];
      SlotIsLast(p, strict, c, i, init, depth);
      SlotsAfterLast(p, strict, c, init, x, depth, map[]);
      FieldForOwn(c, i);
    }
  }

  lemma {:induction false} NoSlots(p: Codecs, strict: bool, c: Codec, depth: nat)
    ensures SlotsAfter(p, strict, c, [], depth, map[]) == map[]
  {
  }

  lemma {:induction false} FinishSame(c: Codec, a: map<string, Value>, b: map<string, Value>, i: nat)
    requires i <= |c.members|
    requires forall j :: i <= j < |c.members| ==> Get(a, c.members[j].name) == Get(b, c.members[j].name)
    ensures Finish(c, a, i) == Finish(c, b, i)
    decreases |c.members| - i
  {
    if i < |c.members| {
      assert Get(a, c.members[i].name) == Get(b, c.members[i].name);
      FinishSame(c, a, b, i + 1);
    }
  }

  // --- the emitted decoder ------------------------------------------------------------

  /** A call of `_decode_<struct>` with the scanner at `toks`, `depth` brackets down. */
  function Decode(p: Codecs, strict: bool, fuel: nat, n: string, toks: seq<Token>, depth: nat)
    : Outcome<(Value, seq<Token>)>
    requires D.Apart(p)
  {
    D.ReadOnce(D.Decoders(p), strict, fuel, EStruct(n), D.State(map[], toks, depth))
  }

  /** A plan with a decoder for `n`, and fuel for the input. */
  ghost predicate CanDecode(p: Codecs, n: string, fuel: nat, toks: seq<Token>) {
    Accepted(p) && D.Apart(p) && n in p && Decodable(p[n]) && fuel >= 2 * |toks| + 2
  }

  lemma {:induction false} DecodeIsRead(p: Codecs, strict: bool, fuel: nat, n: string, toks: seq<Token>, depth: nat)
    requires CanDecode(p, n, fuel, toks)
    ensures Decode(p, strict, fuel, n, toks, depth) == ReadStruct(p, strict, n, toks, depth)
  {
    DR.ReadOnceRuns(p, strict, fuel, EStruct(n), D.State(map[], toks, depth));
  }

  /** What is between the braces, and the brace after it. */
  lemma {:induction false} BodyReads(p: Codecs, strict: bool, c: Codec, entries: seq<Entry>, rest: seq<Token>,
                                     depth: nat)
    requires AllFit(p, strict, c, entries, depth) && depth <= MAX_NESTING_DEPTH
    ensures var body := Body(entries, true) + [RBrace] + rest;
      (if StartsWith(body, RBrace) then Ok((map[], body[1..])) else ReadMembers(p, strict, c, body, depth, map[]))
      == Ok((SlotsAfter(p, strict, c, entries, depth, map[]), rest))
  {
    hide Fits, ReadMembers;
    var body := Body(entries, true) + [RBrace] + rest;
    ObjectSlots(p, strict, c, entries, rest, depth, map[]);
    if entries == [] {
      assert body == [RBrace] + rest && body[1..] == rest;
      NoSlots(p, strict, c, depth);
    } else {
      BodyFirst(entries, rest);
      assert body[0] == Text(entries[0].key);
    }
  }

  /** The emitted decoder on an object of fitting members, wherever it stands in a document. */
  lemma {:induction false} ObjectReads(p: Codecs, strict: bool, fuel: nat, n: string, entries: seq<Entry>,
                                       rest: seq<Token>, depth: nat)
    requires CanDecode(p, n, fuel, Object(entries) + rest) && AllFit(p, strict, p[n], entries, depth + 1)
    ensures Decode(p, strict, fuel, n, Object(entries) + rest, depth) ==
      if depth + 1 > MAX_NESTING_DEPTH then Failed(TooDeep)
      else Finishing(p[n], Ok((SlotsAfter(p, strict, p[n], entries, depth + 1, map[]), rest)))
  {
    hide Fits, SlotsAfter, ReadMembers, ReadStruct, Accepted, Finishing, AllFit, Body, Decode;
    DecodeIsRead(p, strict, fuel, n, Object(entries) + rest, depth);
    assert Object(entries) + rest == [LBrace] + (Body(entries, true) + [RBrace] + rest);
    StructShape(p, strict, n, Body(entries, true) + [RBrace] + rest, depth);
    if depth + 1 <= MAX_NESTING_DEPTH { BodyReads(p, strict, p[n], entries, rest, depth + 1); }
  }

  /** The last value under every key a field has reads the same, or there is none. */
  ghost predicate SameLast(p: Codecs, strict: bool, c: Codec, a: seq<Entry>, b: seq<Entry>, depth: nat) {
    forall i :: 0 <= i < |c.members| && c.members[i].Field? ==>
      SlotOf(p, strict, c, i, a, depth) == SlotOf(p, strict, c, i, b, depth)
  }

  /**
   Two objects that agree on what is last under every known key decode alike,
   at any depth and with anything after them.  The texts need not be the same:
   it is enough that they read the same, so this goes down into nested objects.
   */
  lemma {:induction false} OnlyLastMatters(p: Codecs, strict: bool, fuel: nat, n: string, a: seq<Entry>,
                                           b: seq<Entry>, rest: seq<Token>,
                        depth: nat)
    requires CanDecode(p, n, fuel, Object(a) + rest) && CanDecode(p, n, fuel, Object(b) + rest)
    requires AllFit(p, strict, p[n], a, depth + 1) && AllFit(p, strict, p[n], b, depth + 1)
    requires SameLast(p, strict, p[n], a, b, depth + 1)
    ensures Decode(p, strict, fuel, n, Object(a) + rest, depth) == Decode(p, strict, fuel, n, Object(b) + rest, depth)
  {
    hide Fits, SlotsAfter, SlotOf, AllFit, Decode, Object;
    var c := p[n];
    ObjectReads(p, strict, fuel, n, a, rest, depth);
    ObjectReads(p, strict, fuel, n, b, rest, depth);
    var x, y := SlotsAfter(p, strict, c, a, depth + 1, map[]), SlotsAfter(p, strict, c, b, depth + 1, map[]);
    forall j | 0 <= j < |c.members| ensures Get(x, c.members[j].name) == Get(y, c.members[j].name) {
      SlotIsLast(p, strict, c, j, a, depth + 1);
      SlotIsLast(p, strict, c, j, b, depth + 1);
    }
    FinishSame(c, x, y, 0);
  }

  lemma {:induction false} LastTextAppend(a: seq<Entry>, b: seq<Entry>, key: string)
    ensures LastText(a + b, key) == if LastText(b, key).Some? then LastText(b, key) else LastText(a, key)
    decreases |b|
  {
    if b == [] {
      assert a + b == a;
    } else {
      assert (a + b)[..|a + b| - 1] == a + b[..|b| - 1];
      LastTextAppend(a, b[..|b| - 1], key);
    }
  }

  lemma {:induction false} LastTextOne(x: Entry, key: string)
    ensures LastText([x], key) == if x.key == key then Some(x.text) else None
  {
    assert [x][..0] == [];
  }

  lemma {:induction false} SwapLast(a: seq<Entry>, x: Entry, y: Entry, b: seq<Entry>, key: string)
    requires x.key != y.key
    ensures LastText(a + [x, y] + b, key) == LastText(a + [y, x] + b, key)
  {
    hide LastText;
    LastTextAppend(a + [x, y], b, key);
    LastTextAppend(a + [y, x], b, key);
    LastTextAppend(a, [x, y], key);
    LastTextAppend(a, [y, x], key);
    LastTextAppend([x], [y], key);
    LastTextAppend([y], [x], key);
    LastTextOne(x, key);
    LastTextOne(y, key);
    assert [x, y] == [x] + [y] && [y, x] == [y] + [x];
  }

  lemma {:induction false} BodyLength(entries: seq<Entry>, more: seq<Entry>, first: bool)
    ensures |Body(entries + more, first)| == |Body(entries, first)| + |Body(more, first && entries == [])|
  {
    if entries == [] {
      assert entries + more == more;
    } else {
      assert (entries + more)[1..] == entries[1..] + more;
      BodyLength(entries[1..], more, false);
    }
  }

  lemma {:induction false} SwapLength(a: seq<Entry>, x: Entry, y: Entry, b: seq<Entry>)
    ensures |Object(a + [x, y] + b)| == |Object(a + [y, x] + b)|
  {
    BodyLength(a + [x, y], b, true);
    BodyLength(a + [y, x], b, true);
    BodyLength(a, [x, y], true);
    BodyLength(a, [y, x], true);
    assert [x, y][1..] == [y] && [y, x][1..] == [x] && [x][1..] == [] && [y][1..] == [];
  }

  /** Members with different keys may change places. */
  lemma {:induction false} SwapMembers(p: Codecs, strict: bool, fuel: nat, n: string, a: seq<Entry>, x: Entry,
                                       y: Entry, b: seq<Entry>,
                    rest: seq<Token>, depth: nat)
    requires CanDecode(p, n, fuel, Object(a + [x, y] + b) + rest) && x.key != y.key
    requires AllFit(p, strict, p[n], a + [x, y] + b, depth + 1)
    ensures Decode(p, strict, fuel, n, Object(a + [x, y] + b) + rest, depth)
         == Decode(p, strict, fuel, n, Object(a + [y, x] + b) + rest, depth)
  {
    hide Fits, Decode, Object, LastText;
    var s, t := a + [x, y] + b, a + [y, x] + b;
    assert AllFit(p, strict, p[n], t, depth + 1) by {
      assert s[|a|] == x && s[|a| + 1] == y;
      forall i | 0 <= i < |t| ensures Fits(p, strict, p[n], t[i], depth + 1) {
        assert t[i] == s[if i == |a| then i + 1 else if i == |a| + 1 then i - 1 else i];
      }
    }
    forall i | 0 <= i < |p[n].members| && p[n].members[i].Field?
      ensures SlotOf(p, strict, p[n], i, s, depth + 1) == SlotOf(p, strict, p[n], i, t, depth + 1)
    {
      SwapLast(a, x, y, b, p[n].members[i].json);
    }
    SwapLength(a, x, y, b);
    OnlyLastMatters(p, strict, fuel, n, s, t, rest, depth);
  }

  lemma {:induction false} InsertLast(a: seq<Entry>, x: Entry, b: seq<Entry>, key: string)
    requires x.key != key || LastText(b, key).Some?
    ensures LastText(a + [x] + b, key) == LastText(a + b, key)
  {
    hide LastText;
    LastTextAppend(a + [x], b, key);
    LastTextAppend(a, [x], key);
    LastTextAppend(a, b, key);
    LastTextOne(x, key);
  }

  lemma {:induction false} InsertLength(a: seq<Entry>, x: Entry, b: seq<Entry>)
    ensures |Object(a + b)| <= |Object(a + [x] + b)|
  {
    BodyLength(a + [x], b, true);
    BodyLength(a, [x], true);
    BodyLength(a, b, true);
    assert [x][1..] == [];
    if b != [] { assert |Body(b, true)| + 1 == |Body(b, false)|; }
  }

  /** A member may be added anywhere if its key is unknown, or anywhere before another of its key. */
  lemma {:induction false} InsertMember(p: Codecs, strict: bool, fuel: nat, n: string, a: seq<Entry>, x: Entry,
                                        b: seq<Entry>,
                     rest: seq<Token>, depth: nat)
    requires CanDecode(p, n, fuel, Object(a + [x] + b) + rest)
    requires AllFit(p, strict, p[n], a + b, depth + 1) && Fits(p, strict, p[n], x, depth + 1)
    requires FieldFor(p[n], x.key).None? || LastText(b, x.key).Some?
    ensures Decode(p, strict, fuel, n, Object(a + [x] + b) + rest, depth)
         == Decode(p, strict, fuel, n, Object(a + b) + rest, depth)
  {
    hide Fits, Decode, Object, LastText;
    var s := a + [x] + b;
    forall i | 0 <= i < |s| ensures Fits(p, strict, p[n], s[i], depth + 1) {
      if i != |a| { assert s[i] == (a + b)[if i < |a| then i else i - 1]; }
    }
    forall i | 0 <= i < |p[n].members| && p[n].members[i].Field?
      ensures SlotOf(p, strict, p[n], i, s, depth + 1) == SlotOf(p, strict, p[n], i, a + b, depth + 1)
    {
      InsertLast(a, x, b, p[n].members[i].json);
    }
    InsertLength(a, x, b);
    OnlyLastMatters(p, strict, fuel, n, s, a + b, rest, depth);
  }

  /** The field a decoder reports as missing: the first that must be there and is not. */
  lemma {:induction false} FinishMissing(c: Codec, slots: map<string, Value>, i: nat)
    requires Decodable(c) && i <= |c.members|
    ensures Finish(c, slots, i).Ok? <==>
      forall j :: i <= j < |c.members| ==> Absent(c.members[j].encoding) || c.members[j].name in slots
    ensures Finish(c, slots, i).Failed? ==>
      exists j :: i <= j < |c.members| && Finish(c, slots, i).error == MissingKey(c.name, c.members[j].json)
        && !Absent(c.members[j].encoding) && c.members[j].name !in slots
        && forall k :: i <= k < j ==> Absent(c.members[k].encoding) || c.members[k].name in slots
    decreases |c.members| - i
  {
    if i < |c.members| { FinishMissing(c, slots, i + 1); }
  }

  ghost predicate Lacks(c: Codec, entries: seq<Entry>, j: nat)
    requires j < |c.members| && c.members[j].Field?
  {
    !Absent(c.members[j].encoding) && LastText(entries, c.members[j].json).None?
  }

  /** Field `j` is the first that is lacking. */
  ghost predicate FirstLack(c: Codec, entries: seq<Entry>, j: nat)
    requires Decodable(c) && j < |c.members|
  {
    Lacks(c, entries, j) && forall k :: 0 <= k < j ==> !Lacks(c, entries, k)
  }

  /**
   An object of fitting members, within the cap, is refused exactly when a field
   with no empty value has no member, and the error names the first such field.
   */
  lemma {:induction false} MissingExactly(p: Codecs, strict: bool, fuel: nat, n: string, entries: seq<Entry>,
                                          rest: seq<Token>, depth: nat)
    requires CanDecode(p, n, fuel, Object(entries) + rest) && AllFit(p, strict, p[n], entries, depth + 1)
    requires depth + 1 <= MAX_NESTING_DEPTH
    ensures var r := Decode(p, strict, fuel, n, Object(entries) + rest, depth);
      && (r.Ok? <==> forall j :: 0 <= j < |p[n].members| ==> !Lacks(p[n], entries, j))
      && (r.Failed? ==>
            exists j :: 0 <= j < |p[n].members| && FirstLack(p[n], entries, j)
                        && r.error == MissingKey(n, p[n].members[j].json))
  {
    hide Fits, SlotsAfter, AllFit, Decode, Object, LastText, Read, Finish;
    var c := p[n];
    var slots := SlotsAfter(p, strict, c, entries, depth + 1, map[]);
    ObjectReads(p, strict, fuel, n, entries, rest, depth);
    FinishMissing(c, slots, 0);
    forall j | 0 <= j < |c.members|
      ensures c.members[j].name in slots <==> LastText(entries, c.members[j].json).Some?
    {
      SlotIsLast(p, strict, c, j, entries, depth + 1);
      LastTextFits(p, strict, c, j, entries, depth + 1);
    }
    if Finish(c, slots, 0).Failed? {
      var j :| 0 <= j < |c.members| && Finish(c, slots, 0).error == MissingKey(c.name, c.members[j].json)
        && !Absent(c.members[j].encoding) && c.members[j].name !in slots
        && forall k :: 0 <= k < j ==> Absent(c.members[k].encoding) || c.members[k].name in slots;
      assert FirstLack(c, entries, j);
    }
  }

  lemma {:induction false} LastTextFits(p: Codecs, strict: bool, c: Codec, i: nat, entries: seq<Entry>, depth: nat)
    requires SoundCodec(c) && i < |c.members| && c.members[i].Field? && AllFit(p, strict, c, entries, depth)
    ensures LastText(entries, c.members[i].json).Some? ==> SlotOf(p, strict, c, i, entries, depth).Some?
    decreases |entries|
  {
    hide Read, Skip;
    if entries != [] {
      FieldForOwn(c, i);
      var init := entries[..|entries| - 1];
      assert Fits(p, strict, c, entries[|entries| - 1], depth);
      LastTextFits(p, strict, c, i, init, depth);
    }
  }
}
