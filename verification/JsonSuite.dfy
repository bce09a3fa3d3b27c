/**
 The corpus of documents that `jsonsuite.py` writes into two string constants,
 and the reader in the generated file that takes it out again.
 */
module JsonSuite {
  import opened Common
  import opened HexText
  import opened ShiftDigits
  import T = CodecTags

  const MAX_UNIT := 64
  const MIN_REPEATS := 1000

  // --- repeats ------------------------------------------------------------------------------

  function Repeat<X>(unit: seq<X>, times: nat): (r: seq<X>)
    ensures |r| == times * |unit|
  {
    if times == 0 then [] else Repeat(unit, times - 1) + unit
  }

  /** `data` starts with `times` copies of its first `width` bytes. */
  ghost predicate Opens(data: seq<Byte>, width: nat, times: nat) {
    width * times <= |data| && width <= |data| && data[..width * times] == Repeat(data[..width], times)
  }

  /** One more copy follows. */
  lemma {:induction false} OpensNext(data: seq<Byte>, width: nat, times: nat)
    requires Opens(data, width, times) && width * times + width <= |data|
    requires data[width * times..width * times + width] == data[..width]
    ensures Opens(data, width, times + 1)
  {
    assert width * (times + 1) == width * times + width;
    assert data[..width * (times + 1)] == data[..width * times] + data[width * times..width * times + width];
  }

  lemma {:induction false} RepeatFront<X>(unit: seq<X>, times: nat, less: nat)
    requires less <= times
    ensures less * |unit| <= times * |unit| && Repeat(unit, times)[..less * |unit|] == Repeat(unit, less)
  {
    if less < times {
      RepeatFront(unit, times - 1, less);
      assert times * |unit| == (times - 1) * |unit| + |unit|;
    }
  }

  /** More copies are also fewer. */
  lemma {:induction false} OpensFewer(data: seq<Byte>, width: nat, times: nat, less: nat)
    requires Opens(data, width, times) && less <= times
    ensures Opens(data, width, less)
  {
    RepeatFront(data[..width], times, less);
    assert less * width == width * less && times * width == width * times;
    assert data[..width * less] == data[..width * times][..width * less];
  }

  /** A width that counts as a repeat. */
  ghost predicate Qualifies(data: seq<Byte>, width: nat) {
    1 <= width <= 64 && Opens(data, width, 1000)
  }

  datatype Run = Run(unit: seq<Byte>, times: nat, tail: seq<Byte>)

  /** The inner loop: how often the first `width` bytes come round. */
  method CountCopies(data: seq<Byte>, width: nat) returns (times: nat)
    requires 1 <= width <= |data|
    ensures Opens(data, width, times) && !Opens(data, width, times + 1)
  {
    var unit := data[..width];
    times := 0;
    assert Opens(data, width, 0);
    while Slice(data, times * width, (times + 1) * width) == unit
      invariant Opens(data, width, times)
      decreases |data| - times * width
    {
      Advances(times, width);
      assert times * width == width * times;
      OpensNext(data, width, times);
      times := times + 1;
    }
    if Opens(data, width, times + 1) { OpensLast(data, width, times); }
  }

  /** The last of so many copies is a copy. */
  lemma {:induction false} OpensLast(data: seq<Byte>, width: nat, times: nat)
    requires 1 <= width <= |data| && Opens(data, width, times + 1)
    ensures Slice(data, times * width, (times + 1) * width) == data[..width]
  {
    assert width * (times + 1) == width * times + width == (times + 1) * width && times * width == width * times;
    assert Repeat(data[..width], times + 1)[width * times..] == data[..width];
    assert data[width * times..width * (times + 1)] == data[..width * (times + 1)][width * times..];
  }

  lemma {:induction false} Advances(times: nat, width: nat)
    ensures (times + 1) * width == times * width + width
  {
  }

  /** Python's slice, which stops at the end of the data. */
  function Slice(data: seq<Byte>, from: nat, to: nat): seq<Byte> {
    if from >= |data| || to <= from then [] else if to > |data| then data[from..] else data[from..to]
  }

  /** What makes a run worth writing: enough whole copies, no copy left over. */
  ghost predicate Runs(data: seq<Byte>, width: nat, r: Run) {
    && |r.unit| == width && r.unit != [] && r.times >= MIN_REPEATS
    && data == Repeat(r.unit, r.times) + r.tail && !(r.unit <= r.tail)
  }

  /** What `as_repeat` finds: the narrowest unit that counts, in all its copies, or that there is none. */
  ghost predicate Best(data: seq<Byte>, r: Option<Run>) {
    match r
    case None => forall w: nat :: !Qualifies(data, w)
    case Some(run) =>
      && Qualifies(data, |run.unit|) && Runs(data, |run.unit|, run)
      && forall w: nat :: w < |run.unit| ==> !Qualifies(data, w)
  }

  /** There is one such answer. */
  lemma {:induction false} BestIsOne(data: seq<Byte>, a: Option<Run>, b: Option<Run>)
    requires Best(data, a) && Best(data, b)
    ensures a == b
  {
    hide Opens, Repeat;
    if a.Some? && b.Some? {
      var w := |a.value.unit|;
      assert w == |b.value.unit|;
      UnitOpens(data, a.value);
      UnitOpens(data, b.value);
      if a.value.times < b.value.times {
        NextCopy(data, a.value.unit, a.value.times, a.value.tail, b.value.times, b.value.tail);
      } else if b.value.times < a.value.times {
        NextCopy(data, a.value.unit, b.value.times, b.value.tail, a.value.times, a.value.tail);
      }
      assert |Repeat(a.value.unit, a.value.times)| == |Repeat(b.value.unit, b.value.times)|;
      assert a.value.tail == data[a.value.times * w..] == b.value.tail;
    }
  }

  lemma {:induction false} UnitOpens(data: seq<Byte>, run: Run)
    requires Runs(data, |run.unit|, run)
    ensures |run.unit| <= |data| && run.unit == data[..|run.unit|] && run.tail == data[run.times * |run.unit|..]
  {
    RepeatFront(run.unit, run.times, 1);
    assert Repeat(run.unit, 1) == Repeat(run.unit, 0) + run.unit == run.unit;
    assert 1 * |run.unit| == |run.unit|;
    assert data[..|Repeat(run.unit, run.times)|] == Repeat(run.unit, run.times);
    assert data[..|run.unit|] == data[..run.times * |run.unit|][..|run.unit|];
  }

  /** Where fewer copies are told off, the next copy stands at the front of what is left. */
  lemma {:induction false} NextCopy(data: seq<Byte>, unit: seq<Byte>, a: nat, left: seq<Byte>, b: nat, rest: seq<Byte>)
    requires a < b && data == Repeat(unit, a) + left && data == Repeat(unit, b) + rest
    ensures unit <= left
  {
    var w := |unit|;
    RepeatFront(unit, b, a + 1);
    RepeatFront(unit, a + 1, a);
    Advances(a, w);
    assert Repeat(unit, a + 1) == Repeat(unit, a) + unit;
    assert data[..(a + 1) * w] == Repeat(unit, b)[..(a + 1) * w] == Repeat(unit, a + 1);
    assert left[..w] == data[..(a + 1) * w][a * w..] == unit;
  }

  /** One turn of the loop over the widths. */
  method TryWidth(data: seq<Byte>, width: nat) returns (r: Option<Run>)
    requires 1 <= width <= MAX_UNIT && width <= |data|
    ensures r.Some? <==> Qualifies(data, width)
    ensures r.Some? ==> Runs(data, width, r.value)
  {
    var times := CountCopies(data, width);
    assert times * width == width * times;
    if times < MIN_REPEATS {
      if Opens(data, width, MIN_REPEATS) { OpensFewer(data, width, MIN_REPEATS, times + 1); }
      return None;
    }
    OpensFewer(data, width, times, MIN_REPEATS);
    r := Some(Run(data[..width], times, data[times * width..]));
    if data[..width] <= data[width * times..] { MoreOpens(data, width, times); }
  }

  lemma {:induction false} MoreOpens(data: seq<Byte>, width: nat, times: nat)
    requires Opens(data, width, times) && data[..width] <= data[width * times..]
    ensures Opens(data, width, times + 1)
  {
    assert data[width * times..][..width] == data[width * times..width * times + width];
    OpensNext(data, width, times);
  }

  /** `as_repeat`: the narrowest unit that qualifies, as often as it comes, and what is left. */
  method AsRepeat(data: seq<Byte>) returns (r: Option<Run>)
    ensures Best(data, r)
  {
    for width := 1 to MAX_UNIT + 1
      invariant forall w: nat :: w < width ==> !Qualifies(data, w)
    {
      if |data| < width * MIN_REPEATS {
        forall w: nat | w >= width ensures !Qualifies(data, w) { Wider(width, w); }
        return None;
      }
      r := TryWidth(data, width);
      if r.Some? { return; }
    }
    return None;
  }

  lemma {:induction false} Wider(width: nat, w: nat)
    requires width <= w
    ensures width * MIN_REPEATS <= w * MIN_REPEATS
  {
  }

  // --- an entry of the table ----------------------------------------------------------------

  /** A number in decimal, as it is printed. */
  function Decimal(n: nat): (text: string)
    ensures |text| == |Digits(n)|
  {
    DigitText(Digits(n))
  }

  function DigitText(ds: seq<nat>): (text: string)
    ensures |text| == |ds|
  {
    if ds == [] then [] else DigitText(ds[..|ds| - 1]) + [DigitChar(ds[|ds| - 1])]
  }

  function DigitChar(d: nat): char { if d <= 9 then ('0' as int + d) as char else '9' }

  /** What is written for a document: hex, or hex, a star and a count, or those, a plus and a tail. */
  function Entry(data: seq<Byte>, r: Option<Run>): string {
    match r
    case None => Hex(data)
    case Some(run) =>
      if run.tail == [] then Hex(run.unit) + "*" + Decimal(run.times)
      else Hex(run.unit) + "*" + Decimal(run.times) + "+" + Hex(run.tail)
  }

  /** The repeat, if there is one, is the document. */
  ghost predicate Describes(data: seq<Byte>, r: Option<Run>) {
    r.Some? ==> r.value.times > 0 && data == Repeat(r.value.unit, r.value.times) + r.value.tail
  }

  /** The text is an entry for the document, written in one of the three ways. */
  ghost predicate Spells(text: string, data: seq<Byte>) {
    exists r: Option<Run> :: text == Entry(data, r) && Describes(data, r)
  }

  /** The text is the entry of what `as_repeat` finds. */
  ghost predicate Chosen(text: string, data: seq<Byte>) {
    exists r: Option<Run> :: Best(data, r) && text == Entry(data, r)
  }

  lemma {:induction false} ChosenSpells(text: string, data: seq<Byte>)
    requires Chosen(text, data)
    ensures Spells(text, data)
  {
    var r: Option<Run> :| Best(data, r) && text == Entry(data, r);
    assert Describes(data, r);
  }

  /** `spec` */
  method Spec(data: seq<Byte>) returns (text: string)
    ensures Chosen(text, data) && Spells(text, data)
    ensures (exists w: nat :: Qualifies(data, w)) <==> text != Hex(data)
  {
    var found := AsRepeat(data);
    assert Describes(data, found);
    EntryMarks(data, found);
    HexHasNoMarks(data, '*');
    LastOfNone(Hex(data), '*');
    if found.None? { return Hex(data); }
    var run := found.value;
    if run.tail == [] { return Hex(run.unit) + "*" + Decimal(run.times); }
    text := Hex(run.unit) + "*" + Decimal(run.times) + "+" + Hex(run.tail);
  }

  // --- the reader in the generated file -------------------------------------------------------

  /** `_nibble` */
  function Nibble(digit: char): int {
    if digit <= '9' then digit as int - 0x30 else digit as int - 0x57
  }

  lemma {:induction false} NibbleDigit(n: int)
    requires IsNibble(n)
    ensures Nibble(HexDigit(n)) == n
  {
  }

  /** `_hex` */
  method HexBytes(text: string, ghost data: seq<Byte>) returns (out: seq<Byte>)
    requires text == Hex(data)
    ensures out == data
  {
    out := [];
    var i := 0;
    while i < |text|
      invariant 0 <= i <= |text| && i % 2 == 0 && out == data[..i / 2]
      decreases |text| - i
    {
      ghost var k := i / 2;
      HexAt(data, k);
      NibbleDigit(data[k] / 16);
      NibbleDigit(data[k] % 16);
      out := out + [Nibble(text[i]) * 16 + Nibble(text[i + 1])];
      i := i + 2;
    }
  }

  /** `_count` */
  method Count(text: string, ghost n: nat) returns (value: nat)
    requires text == Decimal(n)
    ensures value == n
  {
    value := 0;
    DigitsSpell(n);
    ghost var ds := Digits(n);
    for i := 0 to |text|
      invariant value == Spelled(ds[..i])
    {
      assert ds[..i + 1][..i] == ds[..i];
      DigitTextAt(ds, i);
      value := value * 10 + (text[i] as int - 0x30);
    }
    assert ds[..|ds|] == ds;
  }

  lemma {:induction false} DigitTextAt(ds: seq<nat>, i: nat)
    requires i < |ds|
    ensures DigitText(ds)[i] == DigitChar(ds[i])
    ensures ds[i] <= 9 ==> DigitText(ds)[i] == "0123456789"[ds[i]]
  {
    if i < |ds| - 1 { DigitTextAt(ds[..|ds| - 1], i); }
  }

  /** Where a character is last, or -1. */
  function LastOf(text: string, c: char): (i: int)
    ensures -1 <= i < |text|
  {
    if text == [] then -1
    else if text[|text| - 1] == c then |text| - 1
    else LastOf(text[..|text| - 1], c)
  }

  lemma {:induction false} LastOfNone(text: string, c: char)
    requires c !in text
    ensures LastOf(text, c) == -1
  {
    if text != [] { LastOfNone(text[..|text| - 1], c); }
  }

  lemma {:induction false} LastOfSplit(a: string, c: char, b: string)
    requires c !in b
    ensures LastOf(a + [c] + b, c) == |a|
  {
    var text := a + [c] + b;
    if b != [] {
      LastOfSplit(a, c, b[..|b| - 1]);
      assert text[..|text| - 1] == a + [c] + b[..|b| - 1];
    }
  }

  /** The loop that finds the star and the plus. */
  method FindMarks(spec: string) returns (star: int, plus: int)
    ensures star == LastOf(spec, '*') && plus == LastOf(spec, '+')
  {
    star, plus := -1, -1;
    for i := 0 to |spec|
      invariant star == LastOf(spec[..i], '*') && plus == LastOf(spec[..i], '+')
    {
      assert spec[..i + 1][..i] == spec[..i];
      if spec[i] == '*' { star := i; } else if spec[i] == '+' { plus := i; }
    }
    assert spec[..|spec|] == spec;
  }

  predicate Marks(c: char) { c == '*' || c == '+' || c == ',' }

  lemma {:induction false} HexHasNoMarks(data: seq<Byte>, c: char)
    requires Marks(c)
    ensures c !in Hex(data)
  {
    HexIsHex(data);
  }

  lemma {:induction false} DigitsHaveNoMarks(ds: seq<nat>, c: char)
    requires Marks(c)
    ensures c !in DigitText(ds)
  {
    if ds != [] { DigitsHaveNoMarks(ds[..|ds| - 1], c); }
  }

  /** Where the marks of an entry are. */
  lemma {:induction false} EntryMarks(data: seq<Byte>, r: Option<Run>)
    ensures r.None? ==> LastOf(Entry(data, r), '*') == -1
    ensures r.Some? ==> LastOf(Entry(data, r), '*') == |Hex(r.value.unit)|
    ensures r.Some? ==>
      LastOf(Entry(data, r), '+') ==
        if r.value.tail == [] then -1 else |Hex(r.value.unit)| + 1 + |Decimal(r.value.times)|
    ensures ',' !in Entry(data, r)
  {
    if r.None? {
      HexHasNoMarks(data, '*');
      HexHasNoMarks(data, ',');
      LastOfNone(Hex(data), '*');
    } else {
      var u, d, t := Hex(r.value.unit), Decimal(r.value.times), Hex(r.value.tail);
      forall c | Marks(c) ensures c !in u && c !in d && c !in t {
        HexHasNoMarks(r.value.unit, c);
        DigitsHaveNoMarks(Digits(r.value.times), c);
        HexHasNoMarks(r.value.tail, c);
      }
      if r.value.tail == [] {
        LastOfSplit(u, '*', d);
        LastOfNone(u + "*" + d, '+');
      } else {
        LastOfSplit(u, '*', d + "+" + t);
        assert u + "*" + (d + "+" + t) == u + "*" + d + "+" + t;
        LastOfSplit(u + "*" + d, '+', t);
      }
    }
  }

  lemma {:induction false} CutOnce(u: string, d: string)
    ensures var text := u + "*" + d;
      |text| == |u| + 1 + |d| && text[..|u|] == u && text[|u| + 1..|u| + 1 + |d|] == d
  {
  }

  lemma {:induction false} CutTwice(u: string, d: string, t: string)
    ensures var text := u + "*" + d + "+" + t;
      |text| == |u| + 2 + |d| + |t| && text[..|u|] == u && text[|u| + 1..|u| + 1 + |d|] == d && text[|u| + |d|
            + 2..] == t
  {
  }

  /** The parts of an entry, cut where the marks are. */
  lemma {:induction false} EntryParts(data: seq<Byte>, run: Run)
    ensures var text, a, b := Entry(data, Some(run)), |Hex(run.unit)|, |Decimal(run.times)|;
      && |text| == (if run.tail == [] then a + 1 + b else a + 2 + b + |Hex(run.tail)|)
      && text[..a] == Hex(run.unit) && text[a + 1..a + 1 + b] == Decimal(run.times)
      && (run.tail != [] ==> text[a + b + 2..] == Hex(run.tail))
  {
    CutOnce(Hex(run.unit), Decimal(run.times));
    CutTwice(Hex(run.unit), Decimal(run.times), Hex(run.tail));
  }

  /** `_document`: the bytes an entry was written for. */
  method Document(spec: string, ghost data: seq<Byte>) returns (out: seq<Byte>)
    requires Spells(spec, data)
    ensures out == data
  {
    hide Hex;
    ghost var r: Option<Run> :| spec == Entry(data, r) && Describes(data, r);
    EntryMarks(data, r);
    var star, plus := FindMarks(spec);
    if star < 0 {
      out := HexBytes(spec, data);
      return;
    }
    EntryParts(data, r.value);
    var stop := if plus >= 0 then plus else |spec|;
    var unit := HexBytes(spec[..star], r.value.unit);
    var times := Count(spec[star + 1..stop], r.value.times);
    var tail: seq<Byte> := [];
    if plus >= 0 { tail := HexBytes(spec[stop + 1..], r.value.tail); }
    out := [];
    for i := 0 to times
      invariant out == Repeat(unit, i)
    {
      out := out + unit;
    }
    out := out + tail;
  }

  // --- the whole table --------------------------------------------------------------------------

  datatype File = File(name: string, data: seq<Byte>)

  /** The two constants of the generated file, or a refusal of a name with a comma in it. */
  datatype Table = Table(names: string, documents: string) | Refused(name: string)

  /** Python's `",".join`, which is nothing for no parts. */
  function JoinAll(parts: seq<string>): string { if parts == [] then [] else T.Join(parts) }

  function NamesOf(files: seq<File>): (r: seq<string>)
    ensures |r| == |files| && forall i :: 0 <= i < |files| ==> r[i] == files[i].name
  {
    seq(|files|, i requires 0 <= i < |files| => files[i].name)
  }

  /** Each document has its entry. */
  ghost predicate Entered(files: seq<File>, specs: seq<string>) {
    |specs| == |files| && forall i :: 0 <= i < |files| ==> Spells(specs[i], files[i].data)
  }

  /** Each document has the entry that is chosen for it. */
  ghost predicate AllChosen(files: seq<File>, specs: seq<string>) {
    |specs| == |files| && forall i :: 0 <= i < |files| ==> Chosen(specs[i], files[i].data)
  }

  lemma {:induction false} ChosenEntered(files: seq<File>, specs: seq<string>)
    requires AllChosen(files, specs)
    ensures Entered(files, specs)
  {
    forall i | 0 <= i < |files| ensures Spells(specs[i], files[i].data) { ChosenSpells(specs[i], files[i].data); }
  }

  /** The two constants hold these files. */
  ghost predicate Holds(table: Table, files: seq<File>) {
    && table.Table? && table.names == JoinAll(NamesOf(files))
    && (forall i :: 0 <= i < |files| ==> ',' !in files[i].name)
    && exists specs :: AllChosen(files, specs) && table.documents == JoinAll(specs)
  }

  /** An entry for every file. */
  method Specs(files: seq<File>) returns (specs: seq<string>)
    ensures AllChosen(files, specs)
  {
    hide Chosen;
    specs := [];
    for i := 0 to |files|
      invariant |specs| == i && forall j :: 0 <= j < i ==> Chosen(specs[j], files[j].data)
    {
      var text := Spec(files[i].data);
      specs := specs + [text];
    }
  }

  /** `generated`, for files in name order. */
  method Generated(files: seq<File>) returns (table: Table)
    ensures table.Refused? <==> exists i :: 0 <= i < |files| && ',' in files[i].name
    ensures table.Table? ==> Holds(table, files)
  {
    hide AllChosen, NamesOf, JoinAll;
    for i := 0 to |files|
      invariant forall j :: 0 <= j < i ==> ',' !in files[j].name
    {
      if ',' in files[i].name { return Refused(files[i].name); }
    }
    var specs := Specs(files);
    table := Table(JoinAll(NamesOf(files)), JoinAll(specs));
  }

  /** What splitting at commas gives back: the list, or one empty name for an empty one. */
  function ReadBack(files: seq<File>): seq<File> {
    if files == [] then [File("", [])] else files
  }

  lemma {:induction false} SpellsPlainly(text: string, data: seq<Byte>)
    requires Spells(text, data)
    ensures ',' !in text
  {
    var r: Option<Run> :| text == Entry(data, r) && Describes(data, r);
    EntryMarks(data, r);
  }

  lemma {:induction false} TablesSplit(files: seq<File>, specs: seq<string>)
    requires Entered(files, specs) && forall i :: 0 <= i < |files| ==> ',' !in files[i].name
    ensures T.Split(JoinAll(NamesOf(files))) == NamesOf(ReadBack(files))
    ensures Entered(ReadBack(files), T.Split(JoinAll(specs)))
  {
    if files == [] {
      assert T.Split("") == [""];
      assert Entry([], None) == "" && Describes([], None);
      assert Spells("", []);
    } else {
      T.SplitJoin(NamesOf(files));
      forall i | 0 <= i < |specs| ensures ',' !in specs[i] { SpellsPlainly(specs[i], files[i].data); }
      T.SplitJoin(specs);
    }
  }

  /** The loop of `suite_cases`. */
  method ReadAll(ns: seq<string>, ds: seq<string>, ghost files: seq<File>) returns (out: seq<File>)
    requires ns == NamesOf(files) && Entered(files, ds)
    ensures out == files
  {
    out := [];
    for i := 0 to |ns|
      invariant out == files[..i]
    {
      var data := Document(ds[i], files[i].data);
      out := out + [File(ns[i], data)];
    }
  }

  /** `suite_cases`: every file again, and one that was never there if there were none. */
  method SuiteCases(table: Table, ghost files: seq<File>) returns (out: seq<File>)
    requires Holds(table, files)
    ensures out == ReadBack(files)
    ensures out == files <==> files != []
  {
    ghost var specs :| AllChosen(files, specs) && table.documents == JoinAll(specs);
    ChosenEntered(files, specs);
    TablesSplit(files, specs);
    out := ReadAll(T.Split(table.names), T.Split(table.documents), ReadBack(files));
  }
}
